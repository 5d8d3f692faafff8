/** The cleanup code of a loader: it closes what the slots hold and returns the failure. */
module LoaderCleanup {
  import opened LoaderVm
  import opened LoaderFlow

  // ----- the code -----

  /** Close what a slot of the stack holds. */
  function StackClose(i: nat): (code: seq<Insn>)
    ensures |code| == 3
  {
    [Load(W, 1, 10, -STACK_SIZE + 4 * i), JumpIf(Sle, 1, 0, 1), Call(SysClose)]
  }

  /** Report a closed descriptor. */
  function Report(addr: int, len: int): seq<Insn> {
    [LdBlob(1, addr), Wide, MovImm(2, len), Mov(3, 9), Mov(4, 0), Call(TracePrintk)]
  }

  /** Close what R1 holds. */
  function CloseR1(log: bool, addr: int, len: int): seq<Insn> {
    [JumpIf(Sle, 1, 0, 2 + if log then 6 else 0), Mov(9, 1), Call(SysClose)] + if log then Report(addr, len) else []
  }

  /** Close what a word of the blob holds. */
  function BlobClose(a: int, log: bool, addr: int, len: int): (code: seq<Insn>)
    ensures |code| == BlobCloseSize(log)
  {
    [LdBlob(0, a), Wide, Load(W, 1, 0, 0)] + CloseR1(log, addr, len)
  }

  function BlobCloseSize(log: bool): nat {
    if log then 12 else 6
  }

  predicate CodeAt(p: seq<Insn>, at: nat, code: seq<Insn>) {
    at + |code| <= |p| && p[at..at + |code|] == code
  }

  ghost predicate HasBlobClose(p: seq<Insn>, at: nat, a: int, log: bool) {
    exists addr, len :: CodeAt(p, at, BlobClose(a, log, addr, len))
  }

  /** The cleanup code for `n` slots of the stack and `m` map slots. */
  ghost predicate IsCleanup(p: seq<Insn>, at: nat, n: nat, m: nat, fd: int, log: bool) {
    && (forall i :: 0 <= i < n ==> CodeAt(p, at + 3 * i, StackClose(i)))
    && (forall j :: 0 <= j < m ==> HasBlobClose(p, MapClose(at, n, j, log), fd + 4 * j, log))
    && CodeAt(p, MapClose(at, n, m, log), [Mov(0, 7), Exit])
  }

  function MapClose(at: nat, n: nat, j: nat, log: bool): nat {
    at + 3 * n + j * BlobCloseSize(log)
  }

  // ----- what it does -----

  /** Only descriptors are closed. */
  ghost predicate Idle(s: State, s': State) {
    && Machine(s) && Machine(s') && s'.outcome == s.outcome == Running
    && s'.stack == s.stack && s'.blob == s.blob && s'.ctx == s.ctx
    && s'.commands == s.commands && s'.results == s.results && s'.checks == s.checks
    && s'.regs[6] == s.regs[6] && s'.regs[7] == s.regs[7] && s'.regs[10] == s.regs[10]
  }

  function IfPositive(x: int): seq<int> {
    if x > 0 then [x] else []
  }

  ghost predicate Gets(p: seq<Insn>, w: World, s: State, pc: int, closed: seq<int>)
    requires Machine(s)
  {
    exists s', n :: Runs(p, w, s, s', n) && Idle(s, s') && s'.pc == pc && s'.closed == closed
  }

  lemma GetsFurther(p: seq<Insn>, w: World, s: State, s1: State, n: nat, pc: int, closed: seq<int>)
    requires Machine(s) && Runs(p, w, s, s1, n) && Idle(s, s1) && Gets(p, w, s1, pc, closed)
    ensures Gets(p, w, s, pc, closed)
  {
    hide Runs;
    var s2, m :| Runs(p, w, s1, s2, m) && Idle(s1, s2) && s2.pc == pc && s2.closed == closed;
    RunsOn(p, w, s, s1, s2, n, m);
  }

  lemma StepGets(p: seq<Insn>, w: World, s: State, pc: int, closed: seq<int>)
    requires Machine(s) && s.outcome.Running? && 0 <= s.pc < |p| && Idle(s, Step(p, w, s)) &&
      Gets(p, w, Step(p, w, s), pc, closed)
    ensures Gets(p, w, s, pc, closed)
  {
    hide Step, Idle;
    var s1 := Step(p, w, s);
    assert Runs(p, w, s1, s1, 0);
    assert Runs(p, w, s, s1, 1);
    GetsFurther(p, w, s, s1, 1, pc, closed);
  }

  lemma AlreadyThere(p: seq<Insn>, w: World, s: State)
    requires Machine(s) && s.outcome == Running
    ensures Gets(p, w, s, s.pc, s.closed)
  {
    assert Runs(p, w, s, s, 0);
  }

  /** Load a slot of the stack. */
  lemma StackLoadStep(p: seq<Insn>, w: World, s: State, off: int)
    requires Machine(s) && s.outcome == Running && 0 <= s.pc < |p| && p[s.pc] == Load(W, 1, 10, off) &&
      s.regs[10] == Ptr(Stack, 0)
    ensures var s1 := Step(p, w, s);
      Idle(s, s1) && s1.closed == s.closed && s1.regs[1] == Num(Word(s.stack, off)) && s1.pc == s.pc + 1
  {
    hide LoadAt;
  }

  lemma StackCloseRuns(p: seq<Insn>, w: World, s: State, i: nat)
    requires Machine(s) && s.outcome == Running && s.pc >= 0 && CodeAt(p, s.pc, StackClose(i)) &&
      s.regs[10] == Ptr(Stack, 0)
    ensures Gets(p, w, s, s.pc + 3, s.closed + IfPositive(Word(s.stack, -STACK_SIZE + 4 * i)))
  {
    hide Gets, Word, Step, Runs;
    var code, fd := StackClose(i), Word(s.stack, -STACK_SIZE + 4 * i);
    var here := p[s.pc..s.pc + 3];
    assert p[s.pc] == here[0] == code[0] && p[s.pc + 1] == here[1] == code[1] && p[s.pc + 2] == here[2] == code[2];
    StackLoadStep(p, w, s, -STACK_SIZE + 4 * i);
    var s1 := Step(p, w, s);
    JumpStep(p, w, s1, 1);
    var s2 := Step(p, w, s1);
    if fd > 0 {
      CloseStep(p, w, s2, fd);
      var s3 := Step(p, w, s2);
      AlreadyThere(p, w, s3);
      StepGets(p, w, s2, s.pc + 3, s3.closed);
      StepGets(p, w, s1, s.pc + 3, s3.closed);
      StepGets(p, w, s, s.pc + 3, s3.closed);
    } else {
      AlreadyThere(p, w, s2);
      StepGets(p, w, s1, s.pc + 3, s.closed);
      StepGets(p, w, s, s.pc + 3, s.closed);
      assert s.closed + [] == s.closed;
    }
  }

  predicate IsQuiet(i: Insn) {
    match i
    case Mov(dst, _) => dst < 6
    case MovImm(dst, _) => dst < 6
    case LdBlob(dst, _) => dst < 6
    case Call(h) => h.TracePrintk?
    case _ => false
  }

  lemma QuietStep(p: seq<Insn>, w: World, s: State)
    requires Machine(s) && s.outcome == Running && 0 <= s.pc < |p| && IsQuiet(p[s.pc])
    ensures var s' := Step(p, w, s);
      Idle(s, s') && s'.closed == s.closed && s'.pc == s.pc + (if p[s.pc].LdBlob? then 2 else 1)
  {
  }

  lemma ReportRuns(p: seq<Insn>, w: World, s: State, addr: int, len: int)
    requires Machine(s) && s.outcome == Running && s.pc >= 0 && CodeAt(p, s.pc, Report(addr, len))
    ensures Gets(p, w, s, s.pc + 6, s.closed)
  {
    hide Gets, Step, Runs;
    var code, pc, closed := Report(addr, len), s.pc + 6, s.closed;
    assert p[s.pc] == p[s.pc..s.pc + 6][0] == code[0] && p[s.pc + 2] == p[s.pc..s.pc + 6][2] == code[2];
    assert p[s.pc + 3] == p[s.pc..s.pc + 6][3] == code[3] && p[s.pc + 4] == p[s.pc..s.pc + 6][4] == code[4];
    assert p[s.pc + 5] == p[s.pc..s.pc + 6][5] == code[5];
    var s1 := Step(p, w, s);
    QuietStep(p, w, s);
    var s2 := Step(p, w, s1);
    QuietStep(p, w, s1);
    var s3 := Step(p, w, s2);
    QuietStep(p, w, s2);
    var s4 := Step(p, w, s3);
    QuietStep(p, w, s3);
    var s5 := Step(p, w, s4);
    QuietStep(p, w, s4);
    AlreadyThere(p, w, s5);
    StepGets(p, w, s4, pc, closed);
    StepGets(p, w, s3, pc, closed);
    StepGets(p, w, s2, pc, closed);
    StepGets(p, w, s1, pc, closed);
    StepGets(p, w, s, pc, closed);
  }

  /** The jump over a close, and the close itself. */
  lemma CloseSteps(p: seq<Insn>, w: World, s: State, jump: nat)
    requires Machine(s) && s.outcome == Running && 0 <= s.pc < |p| - 2 && s.regs[1].Num?
    requires p[s.pc] == JumpIf(Sle, 1, 0, jump) && p[s.pc + 1] == Mov(9, 1) && p[s.pc + 2] == Call(SysClose)
    ensures var s1 := Step(p, w, s);
      Idle(s, s1) && s1.closed == s.closed && s1.regs[1] == s.regs[1] &&
        s1.pc == s.pc + 1 + (if s.regs[1].n > 0 then 0 else jump)
    ensures s.regs[1].n > 0 ==>
      var s1 := Step(p, w, s); var s2 := Step(p, w, s1); var s3 := Step(p, w, s2);
      && Idle(s1, s2) && s2.pc == s.pc + 2 && Idle(s2, s3) && s3.pc == s.pc + 3 && s3.closed == s.closed + [s.regs[1].n]
  {
    hide Step;
    JumpStep(p, w, s, jump);
    var s1 := Step(p, w, s);
    if s.regs[1].n > 0 {
      MoveStep(p, w, s1);
      CloseStep(p, w, Step(p, w, s1), s.regs[1].n);
    }
  }

  lemma JumpStep(p: seq<Insn>, w: World, s: State, jump: nat)
    requires Machine(s) && s.outcome == Running && 0 <= s.pc < |p| && s.regs[1].Num? &&
      p[s.pc] == JumpIf(Sle, 1, 0, jump)
    ensures var s1 := Step(p, w, s);
      Idle(s, s1) && s1.closed == s.closed && s1.regs[1] == s.regs[1] &&
        s1.pc == s.pc + 1 + (if s.regs[1].n > 0 then 0 else jump)
  {
  }

  lemma MoveStep(p: seq<Insn>, w: World, s: State)
    requires Machine(s) && s.outcome == Running && 0 <= s.pc < |p| && p[s.pc] == Mov(9, 1)
    ensures var s1 := Step(p, w, s);
      Idle(s, s1) && s1.closed == s.closed && s1.regs[1] == s.regs[1] && s1.pc == s.pc + 1
  {
  }

  lemma CloseStep(p: seq<Insn>, w: World, s: State, fd: int)
    requires Machine(s) && s.outcome == Running && 0 <= s.pc < |p| && p[s.pc] == Call(SysClose) && s.regs[1] == Num(fd)
    ensures var s1 := Step(p, w, s); Idle(s, s1) && s1.closed == s.closed + [fd] && s1.pc == s.pc + 1
  {
  }

  lemma CloseR1Runs(p: seq<Insn>, w: World, s: State, log: bool, addr: int, len: int)
    requires Machine(s) && s.outcome == Running && s.pc >= 0 && CodeAt(p, s.pc, CloseR1(log, addr, len)) &&
      s.regs[1].Num?
    ensures Gets(p, w, s, s.pc + |CloseR1(log, addr, len)|, s.closed + IfPositive(s.regs[1].n))
  {
    hide Gets, Step, Runs;
    var code := CloseR1(log, addr, len);
    var pc := s.pc + |code|;
    var here := p[s.pc..s.pc + |code|];
    assert p[s.pc] == here[0] == code[0] && p[s.pc + 1] == here[1] == code[1] && p[s.pc + 2] == here[2] == code[2];
    CloseSteps(p, w, s, 2 + if log then 6 else 0);
    var s1 := Step(p, w, s);
    if s.regs[1].n > 0 {
      var s2 := Step(p, w, s1);
      var s3 := Step(p, w, s2);
      if log {
        assert p[s3.pc..s3.pc + 6] == here[3..] == Report(addr, len);
        ReportRuns(p, w, s3, addr, len);
      } else {
        AlreadyThere(p, w, s3);
      }
      StepGets(p, w, s2, pc, s3.closed);
      StepGets(p, w, s1, pc, s3.closed);
      StepGets(p, w, s, pc, s3.closed);
    } else {
      AlreadyThere(p, w, s1);
      StepGets(p, w, s, pc, s.closed);
      assert s.closed + [] == s.closed;
    }
  }

  lemma SlotLoaded(p: seq<Insn>, w: World, s: State, a: int)
    requires Machine(s) && s.outcome == Running && 0 <= s.pc < |p| - 2 && p[s.pc] == LdBlob(0, a) &&
      p[s.pc + 2] == Load(W, 1, 0, 0)
    ensures var s1 := Step(p, w, s);
      var s2 := Step(p, w, s1);
      && Idle(s, s1) && Idle(s1, s2) && s1.pc == s.pc + 2 && s2.pc == s.pc + 3 && s2.closed == s.closed
      && s2.regs[1] == Num(Word(s.blob, a))
  {
    hide LoadAt;
  }

  lemma BlobCloseRuns(p: seq<Insn>, w: World, s: State, a: int, log: bool)
    requires Machine(s) && s.outcome == Running && s.pc >= 0 && HasBlobClose(p, s.pc, a, log)
    ensures Gets(p, w, s, s.pc + BlobCloseSize(log), s.closed + IfPositive(Word(s.blob, a)))
  {
    hide Gets, Word, Step;
    var addr, len :| CodeAt(p, s.pc, BlobClose(a, log, addr, len));
    var code, rest := BlobClose(a, log, addr, len), CloseR1(log, addr, len);
    var pc, closed := s.pc + BlobCloseSize(log), s.closed + IfPositive(Word(s.blob, a));
    assert p[s.pc] == p[s.pc..s.pc + |code|][0] == code[0] && p[s.pc + 2] == p[s.pc..s.pc + |code|][2] == code[2];
    SlotLoaded(p, w, s, a);
    var s1 := Step(p, w, s);
    var s2 := Step(p, w, s1);
    assert p[s2.pc..s2.pc + |rest|] == p[s.pc..s.pc + |code|][3..] == rest;
    CloseR1Runs(p, w, s2, log, addr, len);
    StepGets(p, w, s1, pc, closed);
    StepGets(p, w, s, pc, closed);
  }

  // ----- all of it -----

  /** The positive words of the first `n` slots of the stack, and of the first `m` map slots. */
  ghost function StackFds(stack: Mem, n: nat): seq<int> {
    if n == 0 then [] else StackFds(stack, n - 1) + IfPositive(Word(stack, -STACK_SIZE + 4 * (n - 1)))
  }

  ghost function BlobFds(blob: Mem, fd: int, m: nat): seq<int> {
    if m == 0 then [] else BlobFds(blob, fd, m - 1) + IfPositive(Word(blob, fd + 4 * (m - 1)))
  }

  lemma {:induction false} StackClosed(p: seq<Insn>, w: World, s: State, at: nat, n: nat, i: nat)
    requires Machine(s) && s.outcome == Running && s.pc == at && s.regs[10] == Ptr(Stack, 0) && i <= n
    requires forall i :: 0 <= i < n ==> CodeAt(p, at + 3 * i, StackClose(i))
    ensures Gets(p, w, s, at + 3 * i, s.closed + StackFds(s.stack, i))
    decreases i
  {
    hide Runs, Word, CodeAt;
    if i == 0 {
      AlreadyThere(p, w, s);
      assert s.closed + [] == s.closed;
    } else {
      StackClosed(p, w, s, at, n, i - 1);
      var s1, k: nat :| Runs(p, w, s, s1, k) && Idle(s, s1) && s1.pc == at + 3 * (i - 1) &&
        s1.closed == s.closed + StackFds(s.stack, i - 1);
      StackCloseRuns(p, w, s1, i - 1);
      GetsFurther(p, w, s, s1, k, at + 3 * i, s1.closed + IfPositive(Word(s.stack, -STACK_SIZE + 4 * (i - 1))));
    }
  }

  lemma {:induction false} MapsClosed(p: seq<Insn>, w: World, s: State, at: nat, n: nat, m: nat, fd: int, log: bool,
                                      j: nat)
    requires Machine(s) && s.outcome == Running && s.pc == at + 3 * n && j <= m
    requires forall j :: 0 <= j < m ==> HasBlobClose(p, MapClose(at, n, j, log), fd + 4 * j, log)
    ensures Gets(p, w, s, MapClose(at, n, j, log), s.closed + BlobFds(s.blob, fd, j))
    decreases j
  {
    hide Runs, Word, HasBlobClose;
    if j == 0 {
      AlreadyThere(p, w, s);
      assert s.closed + [] == s.closed;
    } else {
      MapsClosed(p, w, s, at, n, m, fd, log, j - 1);
      var s1, k: nat :| Runs(p, w, s, s1, k) && Idle(s, s1) && s1.pc == MapClose(at, n, j - 1, log) &&
        s1.closed == s.closed + BlobFds(s.blob, fd, j - 1);
      BlobCloseRuns(p, w, s1, fd + 4 * (j - 1), log);
      GetsFurther(p, w, s, s1, k, MapClose(at, n, j, log), s1.closed + IfPositive(Word(s.blob, fd + 4 * (j - 1))));
    }
  }

  /** A run that comes to cleanup closes exactly what the slots hold, in order, and returns R7. */
  ghost predicate CleansUp(p: seq<Insn>, w: World, s: State, n: nat, m: nat, fd: int)
    requires Machine(s)
  {
    exists s', k :: Runs(p, w, s, s', k) && Machine(s') && s'.outcome == Exited(NumOf(s.regs[7]))
      && s'.closed == s.closed + (StackFds(s.stack, n) + BlobFds(s.blob, fd, m))
      && s'.commands == s.commands && s'.results == s.results && s'.checks == s.checks
      && s'.stack == s.stack && s'.blob == s.blob && s'.ctx == s.ctx
  }

  lemma CleanupRuns(p: seq<Insn>, w: World, s: State, at: nat, n: nat, m: nat, fd: int, log: bool)
    requires Machine(s) && s.outcome == Running && s.pc == at && s.regs[10] == Ptr(Stack, 0) &&
      IsCleanup(p, at, n, m, fd, log)
    ensures CleansUp(p, w, s, n, m, fd)
  {
    hide Runs, Word, HasBlobClose, Step, StackFds, BlobFds;
    StackClosed(p, w, s, at, n, n);
    var s1, k1: nat :| Runs(p, w, s, s1, k1) && Idle(s, s1) && s1.pc == at + 3 * n &&
      s1.closed == s.closed + StackFds(s.stack, n);
    MapsClosed(p, w, s1, at, n, m, fd, log, m);
    var s2, k2: nat :| Runs(p, w, s1, s2, k2) && Idle(s1, s2) && s2.pc == MapClose(at, n, m, log) &&
      s2.closed == s1.closed + BlobFds(s1.blob, fd, m);
    RunsOn(p, w, s, s1, s2, k1, k2);
    ReturnRuns(p, w, s2);
    var s3, k3: nat :| Runs(p, w, s2, s3, k3) && s3 == s2.(pc := s2.pc + 1, regs := s2.regs[0 := s2.regs[7]],
      outcome := Exited(NumOf(s2.regs[7])));
    RunsOn(p, w, s, s2, s3, k1 + k2, k3);
    assert s3.closed == s.closed + (StackFds(s.stack, n) + BlobFds(s.blob, fd, m));
  }

  lemma ReturnRuns(p: seq<Insn>, w: World, s: State)
    requires Machine(s) && s.outcome == Running && s.pc >= 0 && CodeAt(p, s.pc, [Mov(0, 7), Exit])
    ensures exists s', k ::
      Runs(p, w, s, s', k) && s' == s.(pc := s.pc + 1, regs := s.regs[0 := s.regs[7]],
        outcome := Exited(NumOf(s.regs[7])))
  {
    assert p[s.pc] == p[s.pc..s.pc + 2][0] == Mov(0, 7) && p[s.pc + 1] == p[s.pc..s.pc + 2][1] == Exit;
    var s1 := Step(p, w, s);
    var s2 := Step(p, w, s1);
    assert Runs(p, w, s2, s2, 0);
    assert Runs(p, w, s1, s2, 1);
    assert Runs(p, w, s, s2, 2);
  }
}
