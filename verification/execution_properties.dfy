/** Properties of the interpreter that relate several operations or several
    turns of the run loop: byte arithmetic against its inverses, memory reads
    after writes, pointer chasing one level at a time, calls that return to
    their caller, skip regions, and the bounded run against single steps. */
module ExecutionProperties {
  import opened Wrappers
  import opened Text
  import opened Code
  import opened Interpreter

  // ------------------------------------------------------------ byte arithmetic

  /** Wrapping subtraction undoes wrapping addition, and the other way round. */
  lemma SubUndoesAdd(a: uint8, b: uint8)
    ensures WrappingSub(WrappingAdd(a, b), b) == a
    ensures WrappingAdd(WrappingSub(a, b), b) == a
  {
  }

  /** Wrapping multiplication is repeated wrapping addition. */
  lemma MulIsRepeatedAdd(a: uint8, b: uint8)
    requires b < 255
    ensures WrappingMul(a, b + 1) == WrappingAdd(WrappingMul(a, b), a)
  {
    assert a * (b + 1) == a * b + a;
  }

  /** Quotient and remainder recompose the dividend. */
  lemma DivRemRecompose(a: uint8, b: uint8)
    requires b != 0
    ensures WrappingDiv(a, b).value * b + WrappingRem(a, b).value == a
  {
  }

  /** Swapping the operands of `CMP` swaps "less" and "greater". */
  lemma CompareSwaps(a: uint8, b: uint8)
    ensures Compare(a, b) + Compare(b, a) == 2
  {
  }

  // ------------------------------------------------------------ memory

  /** After a write, the unit location the written location resolved to holds
      the value written. */
  lemma StoreThenLoad(m: Memory, loc: Location, v: uint8)
    ensures Load(Store(m, loc, v), Location(0, PointerChase(m, loc))) == v
  {
  }

  /** A write changes no other register or cell, including the cells past the
      end of memory, which still read as zero. */
  lemma StoreLeavesOthers(m: Memory, loc: Location, v: uint8, u: UnitLocation)
    requires u != PointerChase(m, loc)
    ensures Load(Store(m, loc, v), Location(0, u)) == Load(m, Location(0, u))
  {
    var m' := Store(m, loc, v);
    match u
    case Registry(reg) =>
    case Mem(i) =>
      if i >= |m'.cells| {
        assert MemGet(m', i) == 0 && MemGet(m, i) == 0;
      }
  }

  /** Without a `*` a location reads itself, so writing and then reading it
      gives the value back. */
  lemma DirectRoundTrip(m: Memory, u: UnitLocation, v: uint8)
    ensures Load(Store(m, Location(0, u), v), Location(0, u)) == v
  {
    StoreThenLoad(m, Location(0, u), v);
  }

  lemma {:induction false} DerefLast(m: Memory, i: nat, n: nat)
    ensures Deref(m, i, n + 1) == MemGet(m, Deref(m, i, n))
    decreases n
  {
    if n > 0 {
      DerefLast(m, MemGet(m, i), n - 1);
    }
  }

  /** One more `*` reads one more time: the value at `k + 1` stars is the cell
      whose index is the value at `k` stars. */
  lemma PointerStep(m: Memory, k: nat, u: UnitLocation)
    requires k + 1 < 256
    ensures Load(m, Location(k + 1, u)) == MemGet(m, Load(m, Location(k, u)))
  {
    var first := match u
      case Registry(reg) => RegGet(m.registers, reg)
      case Mem(i) => MemGet(m, i);
    if k > 0 {
      DerefLast(m, first, k - 1);
    }
  }

  /** One more `*` moves the resolved cell one read further: the location with
      `k + 1` stars is the cell whose index is the value at `k` stars, so a
      write through it lands there. */
  lemma ChaseIndex(m: Memory, k: nat, u: UnitLocation)
    requires k + 1 < 256
    ensures PointerChase(m, Location(k + 1, u)) == Mem(Load(m, Location(k, u)))
  {
    var first := match u
      case Registry(reg) => RegGet(m.registers, reg)
      case Mem(i) => MemGet(m, i);
    if k > 0 {
      DerefLast(m, first, k - 1);
    }
  }

  /** The three registers are separate storage: reading a register after a
      write gives the written byte for that register and the old byte for
      the other two. */
  lemma RegisterReadOverWrite(r: Registers, x: Register, v: uint8, y: Register)
    ensures RegGet(RegSet(r, x, v), y) == if x == y then v else RegGet(r, y)
  {
  }

  // ------------------------------------------------------------ frames below the top

  /** A step result seen with `base` slid under the stack. */
  function Under(r: StepResult, base: seq<Frame>): StepResult {
    match r
    case Next(m') => Next(m'.(stack := base + m'.stack))
    case other => other
  }

  lemma ExecuteUnder(rs: Routines, m: Machine, cp: CodePoint, base: seq<Frame>)
    requires m.stack != []
    ensures Execute(rs, m.(stack := base + m.stack), cp) == Under(Execute(rs, m, cp), base)
  {
    assert Pop(base + m.stack) == base + Pop(m.stack);
    assert forall f :: base + m.stack + [f] == base + (m.stack + [f]);
    assert forall f :: base + Pop(m.stack) + [f] == base + (Pop(m.stack) + [f]);
  }

  /** Frames below the top one take no part in a step (the frame rule). */
  lemma StepUnder(rs: Routines, m: Machine, base: seq<Frame>)
    requires m.stack != []
    ensures Step(rs, m.(stack := base + m.stack)) == Under(Step(rs, m), base)
  {
    var s := m.stack;
    var top := s[|s| - 1];
    assert (base + s)[|base + s| - 1] == top;
    assert Pop(base + s) == base + Pop(s);
    if top.rest != [] {
      var f := Frame(top.rest[1..]);
      assert base + Pop(s) + [f] == base + (Pop(s) + [f]);
      var m1 := m.(stack := Pop(s) + [f]);
      if !m.skipping {
        ExecuteUnder(rs, m1, top.rest[0], base);
      }
    }
  }

  /** The frame rule over several steps that all find a frame to run. */
  lemma {:induction false} StepsUnder(rs: Routines, m: Machine, n: nat, base: seq<Frame>)
    requires Steps(rs, m, n).Next?
    ensures Steps(rs, m.(stack := base + m.stack), n) == Under(Steps(rs, m, n), base)
    decreases n
  {
    if n > 0 {
      var r := Step(rs, m);
      assert r.Next?;
      StepUnder(rs, m, base);
      StepsUnder(rs, r.m, n - 1, base);
    }
  }

  // ------------------------------------------------------------ calls and returns

  /** `RADD name` pushes exactly one frame, holding the routine's code, above
      the caller, whose frame resumes just after the `RADD`. */
  lemma CallPushes(rs: Routines, m: Machine, base: seq<Frame>, name: string, r: seq<CodePoint>)
    requires m.stack == base + [Frame([RAdd(name)] + r)] && !m.skipping && name in rs
    ensures Step(rs, m) == Next(m.(stack := base + [Frame(r), Frame(rs[name])]))
  {
    assert Pop(m.stack) == base;
    assert ([RAdd(name)] + r)[1..] == r;
  }

  /** A call returns to its caller: if the called routine, run on its own
      from the caller's state, empties its stack after `k` steps, then the
      caller is back on top after `k + 1` steps, with the callee's effects on
      memory and output. */
  lemma CallReturns(rs: Routines, m: Machine, base: seq<Frame>, name: string, r: seq<CodePoint>, k: nat)
    requires m.stack == base + [Frame([RAdd(name)] + r)] && !m.skipping && name in rs
    requires var callee := m.(stack := [Frame(rs[name])]);
      Steps(rs, callee, k).Next? && Steps(rs, callee, k).m.stack == []
    ensures var done := Steps(rs, m.(stack := [Frame(rs[name])]), k).m;
      Steps(rs, m, k + 1) == Next(done.(stack := base + [Frame(r)]))
  {
    var callee := m.(stack := [Frame(rs[name])]);
    CallPushes(rs, m, base, name, r);
    var outer := base + [Frame(r)];
    assert base + [Frame(r), Frame(rs[name])] == outer + callee.stack;
    assert Step(rs, m) == Next(callee.(stack := outer + callee.stack));
    StepsUnder(rs, callee, k, outer);
    assert Steps(rs, m, k + 1) == Steps(rs, callee.(stack := outer + callee.stack), k);
    var done := Steps(rs, callee, k).m;
    assert outer + done.stack == outer;
  }

  /** `RSWP name` replaces the running frame by the routine's code: the stack
      keeps its height and the rest of the swapped-out frame is dropped. */
  lemma SwapReplaces(rs: Routines, m: Machine, base: seq<Frame>, name: string, r: seq<CodePoint>)
    requires m.stack == base + [Frame([RSwp(name)] + r)] && !m.skipping && name in rs
    ensures Step(rs, m) == Next(m.(stack := base + [Frame(rs[name])]))
    ensures |Step(rs, m).m.stack| == |m.stack|
  {
    assert Pop(m.stack) == base;
    assert Pop(base + [Frame(r)]) == base;
  }

  /** Calling or swapping to an undeclared routine panics. */
  lemma UndeclaredCallCrashes(rs: Routines, m: Machine, base: seq<Frame>, cp: CodePoint, r: seq<CodePoint>)
    requires (cp.RAdd? || cp.RSwp?) && cp.name !in rs
    requires m.stack == base + [Frame([cp] + r)] && !m.skipping
    ensures Step(rs, m) == Crash(UNDECLARED_ROUTINE)
  {
    assert Pop(m.stack) == base;
  }

  /** `TERM` returns from the running routine. */
  lemma TermPops(rs: Routines, m: Machine, base: seq<Frame>, r: seq<CodePoint>)
    requires m.stack == base + [Frame([Term] + r)] && !m.skipping
    ensures Step(rs, m) == Next(m.(stack := base, skipping := false))
  {
    assert Pop(m.stack) == base;
    assert Pop(base + [Frame(r)]) == base;
  }

  /** A routine that has run out of instructions returns, ending any skip. */
  lemma ExhaustedPops(rs: Routines, m: Machine, base: seq<Frame>)
    requires m.stack == base + [Frame([])]
    ensures Step(rs, m) == Next(m.(stack := base, skipping := false))
  {
    assert Pop(m.stack) == base;
  }

  // ------------------------------------------------------------ skip regions

  /** While skipping, everything up to and including the next `LAND` is
      passed over without effect. */
  lemma {:induction false} SkipsToLand(rs: Routines, m: Machine, base: seq<Frame>, body: seq<CodePoint>, r: seq<CodePoint>)
    requires m.stack == base + [Frame(body + [Land] + r)] && m.skipping
    requires Land !in body
    ensures Steps(rs, m, |body| + 1) == Next(m.(stack := base + [Frame(r)], skipping := false))
    decreases |body|
  {
    var code := body + [Land] + r;
    assert Pop(m.stack) == base;
    if body == [] {
      assert code[0] == Land && code[1..] == r;
    } else {
      assert code[0] == body[0] && code[1..] == body[1..] + [Land] + r;
      var m1 := m.(stack := base + [Frame(code[1..])]);
      assert Step(rs, m) == Next(m1);
      SkipsToLand(rs, m1, base, body[1..], r);
    }
  }

  /** While skipping with no `LAND` left in the frame, the rest of the frame
      is passed over and the routine returns. */
  lemma {:induction false} SkipsToEnd(rs: Routines, m: Machine, base: seq<Frame>, body: seq<CodePoint>)
    requires m.stack == base + [Frame(body)] && m.skipping
    requires Land !in body
    ensures Steps(rs, m, |body| + 1) == Next(m.(stack := base, skipping := false))
    decreases |body|
  {
    assert Pop(m.stack) == base;
    if body != [] {
      var m1 := m.(stack := base + [Frame(body[1..])]);
      assert Step(rs, m) == Next(m1);
      SkipsToEnd(rs, m1, base, body[1..]);
    }
  }

  /** A `BJMP` whose condition is non-zero skips everything up to and including
      the next `LAND`; nothing but the position in the frame changes. */
  lemma SkipRegion(rs: Routines, m: Machine, base: seq<Frame>, c: Location, body: seq<CodePoint>, r: seq<CodePoint>)
    requires m.stack == base + [Frame([BJmp(c)] + body + [Land] + r)] && !m.skipping
    requires Load(m.memory, c) != 0 && Land !in body
    ensures Steps(rs, m, |body| + 2) == Next(m.(stack := base + [Frame(r)]))
  {
    var code := [BJmp(c)] + body + [Land] + r;
    assert Pop(m.stack) == base;
    assert code[0] == BJmp(c) && code[1..] == body + [Land] + r;
    var m1 := m.(stack := base + [Frame(code[1..])], skipping := true);
    assert Step(rs, m) == Next(m1);
    SkipsToLand(rs, m1, base, body, r);
  }

  /** A region opened by a non-zero `BJMP` and never closed runs to the end of
      the routine, which then returns. */
  lemma UnclosedRegion(rs: Routines, m: Machine, base: seq<Frame>, c: Location, body: seq<CodePoint>)
    requires m.stack == base + [Frame([BJmp(c)] + body)] && !m.skipping
    requires Load(m.memory, c) != 0 && Land !in body
    ensures Steps(rs, m, |body| + 2) == Next(m.(stack := base))
  {
    var code := [BJmp(c)] + body;
    assert Pop(m.stack) == base;
    assert code[0] == BJmp(c) && code[1..] == body;
    var m1 := m.(stack := base + [Frame(body)], skipping := true);
    assert Step(rs, m) == Next(m1);
    SkipsToEnd(rs, m1, base, body);
  }

  /** A `BJMP` whose condition is zero does nothing. */
  lemma ZeroBranch(rs: Routines, m: Machine, base: seq<Frame>, c: Location, r: seq<CodePoint>)
    requires m.stack == base + [Frame([BJmp(c)] + r)] && !m.skipping
    requires Load(m.memory, c) == 0
    ensures Step(rs, m) == Next(m.(stack := base + [Frame(r)]))
  {
    assert Pop(m.stack) == base;
    assert ([BJmp(c)] + r)[1..] == r;
  }

  /** A `LAND` outside a skip region changes nothing but the error stream,
      where the run loop's catch-all arm reports an unknown code point. */
  lemma LandOutsideRegion(rs: Routines, m: Machine, base: seq<Frame>, r: seq<CodePoint>)
    requires m.stack == base + [Frame([Land] + r)] && !m.skipping
    ensures Step(rs, m) == Next(m.(stack := base + [Frame(r)], errors := m.errors + UNKNOWN_CODE_POINT))
  {
    assert Pop(m.stack) == base;
    assert ([Land] + r)[1..] == r;
  }

  // ------------------------------------------------------------ data instructions

  /** `SET dest v` writes `v` where `dest` resolves; nothing else changes. */
  lemma SetStep(rs: Routines, m: Machine, base: seq<Frame>, d: Location, v: uint8, r: seq<CodePoint>)
    requires m.stack == base + [Frame([Set(d, v)] + r)] && !m.skipping
    ensures Step(rs, m) == Next(m.(stack := base + [Frame(r)], memory := Store(m.memory, d, v)))
  {
    assert Pop(m.stack) == base;
    assert ([Set(d, v)] + r)[1..] == r;
  }

  /** `CPY dest source` writes the value read at `source` where `dest` resolves. */
  lemma CpyStep(rs: Routines, m: Machine, base: seq<Frame>, d: Location, src: Location, r: seq<CodePoint>)
    requires m.stack == base + [Frame([Cpy(d, src)] + r)] && !m.skipping
    ensures Step(rs, m) ==
      Next(m.(stack := base + [Frame(r)], memory := Store(m.memory, d, Load(m.memory, src))))
  {
    assert Pop(m.stack) == base;
    assert ([Cpy(d, src)] + r)[1..] == r;
  }

  /** `ADD` to `CMP` with a usable divisor change only `O`: the cells, `I1`,
      `I2`, the stack below and the streams stay as they were. */
  lemma ArithStep(rs: Routines, m: Machine, base: seq<Frame>, cp: CodePoint, r: seq<CodePoint>)
    requires cp.Add? || cp.Sub? || cp.Mul? || cp.Div? || cp.Mod? || cp.Cmp?
    requires (cp.Div? || cp.Mod?) ==> m.memory.registers.i2 != 0
    requires m.stack == base + [Frame([cp] + r)] && !m.skipping
    ensures Step(rs, m).Next?
    ensures var regs := m.memory.registers;
      Step(rs, m) == Next(m.(stack := base + [Frame(r)],
                             memory := m.memory.(registers := Arithmetic(regs, cp).value)))
  {
    assert Pop(m.stack) == base;
    assert ([cp] + r)[1..] == r;
  }

  /** `ADD` on 250 and 10 leaves 4 in `O`: the sum wraps at 256. */
  lemma AddWraps(rs: Routines, m: Machine, r: seq<CodePoint>)
    requires m.stack == [Frame([Add] + r)] && !m.skipping
    requires m.memory.registers.i1 == 250 && m.memory.registers.i2 == 10
    ensures Step(rs, m).Next? && Step(rs, m).m.memory.registers.o == 4
    ensures Step(rs, m).m.memory.cells == m.memory.cells
  {
    ArithStep(rs, m, [], Add, r);
    assert [] + [Frame([Add] + r)] == m.stack;
  }

  /** `DIV` or `MOD` with `I2` zero panics with Rust's message. */
  lemma ZeroDivisorStep(rs: Routines, m: Machine, base: seq<Frame>, cp: CodePoint, r: seq<CodePoint>)
    requires (cp.Div? || cp.Mod?) && m.memory.registers.i2 == 0
    requires m.stack == base + [Frame([cp] + r)] && !m.skipping
    ensures Step(rs, m) == Crash(if cp.Div? then DIVIDE_BY_ZERO else REMAINDER_BY_ZERO)
  {
    assert Pop(m.stack) == base;
  }

  /** `PRINT` appends the decimal form of the operand's value to the output. */
  lemma PrintStep(rs: Routines, m: Machine, base: seq<Frame>, o: Operand, r: seq<CodePoint>)
    requires m.stack == base + [Frame([Print(o)] + r)] && !m.skipping
    ensures Step(rs, m) ==
      Next(m.(stack := base + [Frame(r)], output := m.output + ToDecimal(OperandValue(m.memory, o))))
  {
    assert Pop(m.stack) == base;
    assert ([Print(o)] + r)[1..] == r;
  }

  /** `PRINT 8` writes the single character `8`. */
  lemma PrintEight(rs: Routines, m: Machine, r: seq<CodePoint>)
    requires m.stack == [Frame([Print(Value(8))] + r)] && !m.skipping
    ensures Step(rs, m).Next? && Step(rs, m).m.output == m.output + "8"
  {
    PrintStep(rs, m, [], Value(8), r);
    assert [] + [Frame([Print(Value(8))] + r)] == m.stack;
  }

  /** `PRINTC` appends the character whose code is the operand's value. */
  lemma PrintcStep(rs: Routines, m: Machine, base: seq<Frame>, o: Operand, r: seq<CodePoint>)
    requires m.stack == base + [Frame([PrintC(o)] + r)] && !m.skipping
    ensures Step(rs, m) ==
      Next(m.(stack := base + [Frame(r)], output := m.output + [OperandValue(m.memory, o) as char]))
  {
    assert Pop(m.stack) == base;
    assert ([PrintC(o)] + r)[1..] == r;
  }

  // ------------------------------------------------------------ bounded run

  /** The run loop's transition for a routine table, as a function value, so
      that the bounded run can be reasoned about without unfolding a step. */
  function StepOf(rs: Routines): Machine -> StepResult {
    m => Step(rs, m)
  }

  /** `Run` for an arbitrary transition. */
  function RunWith(step: Machine -> StepResult, m: Machine, fuel: nat): RunResult
    decreases fuel
  {
    match step(m)
    case Halted => Finished(m)
    case Crash(reason) => Crashed(reason, m)
    case Next(m') => if fuel == 0 then OutOfFuel(m) else RunWith(step, m', fuel - 1)
  }

  /** `Steps` for an arbitrary transition. */
  function StepsWith(step: Machine -> StepResult, m: Machine, n: nat): StepResult
    decreases n
  {
    if n == 0 then Next(m)
    else
      match step(m)
      case Next(m') => StepsWith(step, m', n - 1)
      case other => other
  }

  lemma {:induction false} RunIsRunWith(rs: Routines, m: Machine, fuel: nat)
    ensures Run(rs, m, fuel) == RunWith(StepOf(rs), m, fuel)
    decreases fuel
  {
    assert StepOf(rs)(m) == Step(rs, m);
    if fuel > 0 && Step(rs, m).Next? {
      RunIsRunWith(rs, Step(rs, m).m, fuel - 1);
    }
  }

  lemma {:induction false} StepsIsStepsWith(rs: Routines, m: Machine, n: nat)
    ensures Steps(rs, m, n) == StepsWith(StepOf(rs), m, n)
    decreases n
  {
    assert StepOf(rs)(m) == Step(rs, m);
    if n > 0 && Step(rs, m).Next? {
      StepsIsStepsWith(rs, Step(rs, m).m, n - 1);
    }
  }

  /** Reaching a halting state within the fuel makes the bounded run finish there. */
  lemma {:induction false} RunWithFinishes(step: Machine -> StepResult, m: Machine, fuel: nat, k: nat)
    requires k <= fuel
    requires StepsWith(step, m, k).Next? && step(StepsWith(step, m, k).m) == Halted
    ensures RunWith(step, m, fuel) == Finished(StepsWith(step, m, k).m)
    decreases k
  {
    if k > 0 {
      RunWithFinishes(step, step(m).m, fuel - 1, k - 1);
    }
  }

  lemma {:induction false} RunWithFinishedAfterSteps(step: Machine -> StepResult, m: Machine, fuel: nat)
    requires RunWith(step, m, fuel).Finished?
    ensures exists k: nat :: k <= fuel && StepsWith(step, m, k) == Next(RunWith(step, m, fuel).m)
    decreases fuel
  {
    if step(m) == Halted {
      assert StepsWith(step, m, 0) == Next(m);
    } else {
      var m' := step(m).m;
      RunWithFinishedAfterSteps(step, m', fuel - 1);
      var k: nat :| k <= fuel - 1 && StepsWith(step, m', k) == Next(RunWith(step, m', fuel - 1).m);
      assert StepsWith(step, m, k + 1) == StepsWith(step, m', k);
    }
  }

  /** The bounded run finishes in the state some number of steps within the
      fuel reaches with an empty stack. */
  lemma RunFinishes(rs: Routines, m: Machine, fuel: nat, k: nat)
    requires k <= fuel
    requires Steps(rs, m, k).Next? && Steps(rs, m, k).m.stack == []
    ensures Run(rs, m, fuel) == Finished(Steps(rs, m, k).m)
  {
    StepsIsStepsWith(rs, m, k);
    RunIsRunWith(rs, m, fuel);
    assert StepOf(rs)(Steps(rs, m, k).m) == Halted;
    RunWithFinishes(StepOf(rs), m, fuel, k);
  }

  /** When the bounded run finishes, its final state is reached by that many
      single steps. */
  lemma FinishedAfterSteps(rs: Routines, m: Machine, fuel: nat)
    requires Run(rs, m, fuel).Finished?
    ensures exists k: nat :: k <= fuel && Steps(rs, m, k) == Next(Run(rs, m, fuel).m)
  {
    RunIsRunWith(rs, m, fuel);
    RunWithFinishedAfterSteps(StepOf(rs), m, fuel);
    var k: nat :| k <= fuel && StepsWith(StepOf(rs), m, k) == Next(RunWith(StepOf(rs), m, fuel).m);
    StepsIsStepsWith(rs, m, k);
  }

  // ------------------------------------------------------------ execute

  /** A routine that `execute_routine` runs to completion got there by single
      steps from the machine with its frame pushed and `jumping` cleared. */
  lemma ExecuteRunsSteps(rs: Routines, m: Machine, name: string, fuel: nat)
    requires ExecuteRoutine(rs, m, name, fuel).Ran? && ExecuteRoutine(rs, m, name, fuel).run.Finished?
    ensures name in rs
    ensures exists k: nat :: (k <= fuel &&
      Steps(rs, m.(stack := m.stack + [Frame(rs[name])], skipping := false), k)
        == Next(ExecuteRoutine(rs, m, name, fuel).run.m))
  {
    FinishedAfterSteps(rs, m.(stack := m.stack + [Frame(rs[name])], skipping := false), fuel);
  }

  /** An empty `Main` on a fresh stack finishes at once, changing nothing but
      the skip flag. */
  lemma EmptyMainFinishes(rs: Routines, m: Machine, fuel: nat)
    requires "Main" in rs && rs["Main"] == [] && m.stack == [] && fuel >= 1
    ensures ExecuteMain(rs, m, fuel) == Ran(Finished(m.(skipping := false)))
  {
    var start := m.(stack := m.stack + [Frame([])], skipping := false);
    var done := m.(skipping := false);
    ExhaustedPops(rs, start, []);
    assert start.(stack := [], skipping := false) == done;
    assert Run(rs, done, fuel - 1) == Finished(done);
    assert Run(rs, start, fuel) == Run(rs, done, fuel - 1);
  }
}
