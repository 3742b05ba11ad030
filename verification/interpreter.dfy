/** The machine of `src/interpreter.rs`: three byte registers, a byte memory
    that grows on demand, and a stack of routine frames run one instruction
    at a time. The printed text is kept as two traces instead of being written
    to the process's streams. */
module Interpreter {
  import opened Wrappers
  import opened Text
  import opened Code

  const UNDECLARED_ROUTINE := "call of undeclared routine"
  const DIVIDE_BY_ZERO := "attempt to divide by zero"
  const REMAINDER_BY_ZERO := "attempt to calculate the remainder with a divisor of zero"
  /** What the catch-all arm of the run loop writes to the error stream. */
  const UNKNOWN_CODE_POINT := "WARNING: unknown code point\n"

  // ------------------------------------------------------------ byte arithmetic

  /** `u8::wrapping_add`. */
  function WrappingAdd(a: uint8, b: uint8): (r: uint8)
    ensures r == a + b || r == a + b - 256
  {
    (a + b) % 256
  }

  /** `u8::wrapping_sub`. */
  function WrappingSub(a: uint8, b: uint8): (r: uint8)
    ensures r == a - b || r == a - b + 256
  {
    (a - b) % 256
  }

  /** `u8::wrapping_mul`. */
  function WrappingMul(a: uint8, b: uint8): (r: uint8)
    ensures (a * b - r) % 256 == 0
  {
    (a * b) % 256
  }

  /** `u8::wrapping_div`, which panics on a zero divisor. */
  function WrappingDiv(a: uint8, b: uint8): (r: Result<uint8>)
    ensures r.Err? <==> b == 0
    ensures r.Err? ==> r == Err(Panicked(DIVIDE_BY_ZERO))
    ensures r.Ok? ==> r.value * b <= a < (r.value + 1) * b
  {
    if b == 0 then Err(Panicked(DIVIDE_BY_ZERO)) else Ok(a / b)
  }

  /** `u8::wrapping_rem`, which panics on a zero divisor. */
  function WrappingRem(a: uint8, b: uint8): (r: Result<uint8>)
    ensures r.Err? <==> b == 0
    ensures r.Err? ==> r == Err(Panicked(REMAINDER_BY_ZERO))
    ensures r.Ok? ==> r.value < b
  {
    if b == 0 then Err(Panicked(REMAINDER_BY_ZERO)) else Ok(a % b)
  }

  /** The `CMP` encoding of `u8::cmp`: 0 for less, 1 for equal, 2 for greater. */
  function Compare(a: uint8, b: uint8): (r: uint8)
    ensures r == 0 <==> a < b
    ensures r == 1 <==> a == b
    ensures r == 2 <==> a > b
  {
    if a < b then 0 else if a == b then 1 else 2
  }

  // ------------------------------------------------------------ registers

  /** `Registry`: the two inputs and the output of the arithmetic instructions. */
  datatype Registers = Registers(i1: uint8, i2: uint8, o: uint8)

  function NewRegisters(): (r: Registers)
    ensures r.i1 == 0 && r.i2 == 0 && r.o == 0
  {
    Registers(0, 0, 0)
  }

  /** `Registry::get`. */
  function RegGet(r: Registers, reg: Register): uint8 {
    match reg
    case I1 => r.i1
    case I2 => r.i2
    case O => r.o
  }

  /** `Registry::set`: the named register takes the value, the others keep theirs. */
  function RegSet(r: Registers, reg: Register, v: uint8): (r': Registers)
    ensures RegGet(r', reg) == v
    ensures forall other :: other != reg ==> RegGet(r', other) == RegGet(r, other)
  {
    match reg
    case I1 => r.(i1 := v)
    case I2 => r.(i2 := v)
    case O => r.(o := v)
  }

  // ------------------------------------------------------------ memory

  /** `Memory`: the registers and the cells written so far. */
  datatype Memory = Memory(registers: Registers, cells: seq<uint8>)

  function NewMemory(): (m: Memory)
    ensures m.cells == [] && m.registers == NewRegisters()
  {
    Memory(NewRegisters(), [])
  }

  /** `Memory::mem_get`: a cell never written reads as zero. */
  function MemGet(m: Memory, i: nat): (v: uint8)
    ensures i >= |m.cells| ==> v == 0
  {
    if i < |m.cells| then m.cells[i] else 0
  }

  /** The loop of `pointer_chase`: `n` further reads through memory from index `i`. */
  function Deref(m: Memory, i: nat, n: nat): nat
    decreases n
  {
    if n == 0 then i else Deref(m, MemGet(m, i), n - 1)
  }

  /** `Memory::pointer_chase`: with no `*` the location itself; otherwise the
      unit location is read once (a register or a cell) and the byte found is
      followed through memory `ptrCount - 1` more times, ending in memory. */
  function PointerChase(m: Memory, loc: Location): (u: UnitLocation)
    ensures loc.ptrCount == 0 ==> u == loc.unit
    ensures loc.ptrCount > 0 ==> u.Mem? && u.index < 256
  {
    if loc.ptrCount == 0 then loc.unit
    else
      var first := match loc.unit
        case Registry(reg) => RegGet(m.registers, reg)
        case Mem(i) => MemGet(m, i);
      var index := Deref(m, first, loc.ptrCount - 1);
      assert index < 256 by {
        DerefBelow(m, first, loc.ptrCount - 1);
      }
      Mem(index)
  }

  lemma {:induction false} DerefBelow(m: Memory, i: nat, n: nat)
    requires i < 256
    ensures Deref(m, i, n) < 256
    decreases n
  {
    if n > 0 {
      DerefBelow(m, MemGet(m, i), n - 1);
    }
  }

  /** `Memory::get`: the value at the unit location `loc` resolves to. A direct
      location reads its register or cell; an indirect one always reads memory. */
  function Load(m: Memory, loc: Location): (v: uint8)
    ensures loc.ptrCount == 0 && loc.unit.Registry? ==> v == RegGet(m.registers, loc.unit.reg)
    ensures loc.ptrCount == 0 && loc.unit.Mem? ==> v == MemGet(m, loc.unit.index)
    ensures loc.ptrCount > 0 ==> v == MemGet(m, PointerChase(m, loc).index)
  {
    match PointerChase(m, loc)
    case Registry(reg) => RegGet(m.registers, reg)
    case Mem(i) => MemGet(m, i)
  }

  function Zeros(n: nat): (z: seq<uint8>)
    ensures |z| == n && forall k :: 0 <= k < n ==> z[k] == 0
  {
    if n == 0 then [] else [0] + Zeros(n - 1)
  }

  /** `Memory::set`: a register is overwritten; a cell is overwritten, the
      memory first growing with zeros up to it when it lies past the end. */
  function Store(m: Memory, loc: Location, v: uint8): (m': Memory)
    ensures PointerChase(m, loc).Registry? ==>
      m'.cells == m.cells && m'.registers == RegSet(m.registers, PointerChase(m, loc).reg, v)
    ensures PointerChase(m, loc).Mem? ==> var i := PointerChase(m, loc).index;
      && m'.registers == m.registers
      && |m'.cells| == (if i < |m.cells| then |m.cells| else i + 1)
      && m'.cells[i] == v
      && (forall k :: 0 <= k < |m.cells| && k != i ==> m'.cells[k] == m.cells[k])
      && (forall k :: |m.cells| <= k < |m'.cells| && k != i ==> m'.cells[k] == 0)
  {
    match PointerChase(m, loc)
    case Registry(reg) => m.(registers := RegSet(m.registers, reg, v))
    case Mem(i) =>
      if i < |m.cells| then m.(cells := m.cells[i := v])
      else m.(cells := m.cells + Zeros(i - |m.cells|) + [v])
  }

  // ------------------------------------------------------------ the machine

  /** `CodeFrame`: what is left of a routine's instructions. */
  datatype Frame = Frame(rest: seq<CodePoint>)

  /** The interpreter: memory, the runtime stack (top last), whether the run
      loop is skipping up to the next `LAND`, and the text written to the
      output and error streams. */
  datatype Machine = Machine(memory: Memory, stack: seq<Frame>, skipping: bool, output: string, errors: string)

  /** `Interpreter::new`. */
  function NewInterpreter(): (m: Machine)
    ensures m.stack == [] && !m.skipping && m.output == [] && m.errors == []
    ensures m.memory.cells == [] && m.memory.registers == NewRegisters()
  {
    Machine(NewMemory(), [], false, [], [])
  }

  datatype StepResult = Next(m: Machine) | Halted | Crash(reason: string)

  /** The value an operand denotes. */
  function OperandValue(mem: Memory, o: Operand): uint8 {
    match o
    case MemLoc(l) => Load(mem, l)
    case Value(v) => v
  }

  function Pop(stack: seq<Frame>): seq<Frame>
    requires stack != []
  {
    stack[..|stack| - 1]
  }

  /** The register instructions `ADD` to `CMP`: each writes `O` from `I1`
      and `I2`; division and remainder by zero panic. */
  function Arithmetic(regs: Registers, cp: CodePoint): (r: Result<Registers>)
    requires cp.Add? || cp.Sub? || cp.Mul? || cp.Div? || cp.Mod? || cp.Cmp?
    ensures r.Ok? ==> r.value.i1 == regs.i1 && r.value.i2 == regs.i2
    ensures r.Err? <==> (cp.Div? || cp.Mod?) && regs.i2 == 0
    ensures r.Err? ==> r.failure == Panicked(if cp.Div? then DIVIDE_BY_ZERO else REMAINDER_BY_ZERO)
    // `O` receives the byte result of `I1 op I2`
    ensures cp.Add? ==> r.Ok? && r.value.o == (regs.i1 + regs.i2) % 256
    ensures cp.Sub? ==> r.Ok? && r.value.o == (regs.i1 - regs.i2) % 256
    ensures cp.Mul? ==> r.Ok? && r.value.o == (regs.i1 * regs.i2) % 256
    ensures cp.Div? && r.Ok? ==> r.value.o * regs.i2 <= regs.i1 < (r.value.o + 1) * regs.i2
    ensures cp.Mod? && r.Ok? ==> r.value.o == regs.i1 % regs.i2
    ensures cp.Cmp? ==> (r.Ok? && (r.value.o == 0 <==> regs.i1 < regs.i2)
      && (r.value.o == 1 <==> regs.i1 == regs.i2) && (r.value.o == 2 <==> regs.i1 > regs.i2))
  {
    var a, b := regs.i1, regs.i2;
    match cp
    case Add => Ok(regs.(o := WrappingAdd(a, b)))
    case Sub => Ok(regs.(o := WrappingSub(a, b)))
    case Mul => Ok(regs.(o := WrappingMul(a, b)))
    case Div => var q :- WrappingDiv(a, b); Ok(regs.(o := q))
    case Mod => var q :- WrappingRem(a, b); Ok(regs.(o := q))
    case Cmp => Ok(regs.(o := Compare(a, b)))
  }

  /** One instruction outside a skip region, taken from a stack whose top frame
      has already moved past it. Leaving the inner `for` loop (a call, a swap,
      a return) ends any skipping. */
  function Execute(rs: Routines, m: Machine, cp: CodePoint): (r: StepResult)
    requires m.stack != []
    ensures r != Halted
    ensures r.Next? ==> |r.m.memory.cells| >= |m.memory.cells|
    ensures r.Next? ==> m.output <= r.m.output && m.errors <= r.m.errors
    ensures r.Crash? <==>
      || ((cp.RAdd? || cp.RSwp?) && cp.name !in rs)
      || ((cp.Div? || cp.Mod?) && m.memory.registers.i2 == 0)
  {
    var mem := m.memory;
    match cp
    case Set(d, v) => Next(m.(memory := Store(mem, d, v)))
    case Cpy(d, s) => Next(m.(memory := Store(mem, d, Load(mem, s))))
    case BJmp(c) => Next(m.(skipping := Load(mem, c) != 0))
    case RAdd(name) =>
      if name !in rs then Crash(UNDECLARED_ROUTINE)
      else Next(m.(stack := m.stack + [Frame(rs[name])], skipping := false))
    case RSwp(name) =>
      if name !in rs then Crash(UNDECLARED_ROUTINE)
      else Next(m.(stack := Pop(m.stack) + [Frame(rs[name])], skipping := false))
    case Term => Next(m.(stack := Pop(m.stack), skipping := false))
    case Print(o) => Next(m.(output := m.output + ToDecimal(OperandValue(mem, o))))
    case PrintC(o) => Next(m.(output := m.output + [OperandValue(mem, o) as char]))
    case Land => Next(m.(errors := m.errors + UNKNOWN_CODE_POINT))
    case _ =>
      match Arithmetic(mem.registers, cp)
      case Ok(regs) => Next(m.(memory := mem.(registers := regs)))
      case Err(f) => Crash(f.msg)
  }

  /** One turn of the run loop: halt on an empty stack, drop an exhausted top
      frame, otherwise take the top frame's next instruction and either skip
      it (a `LAND` ends the skip) or execute it. */
  function Step(rs: Routines, m: Machine): (r: StepResult)
    ensures r == Halted <==> m.stack == []
    ensures r.Next? ==> |r.m.memory.cells| >= |m.memory.cells|
    ensures r.Next? ==> m.output <= r.m.output && m.errors <= r.m.errors
    ensures r.Next? ==> |m.stack| - 1 <= |r.m.stack| <= |m.stack| + 1
  {
    if m.stack == [] then Halted
    else
      var top := m.stack[|m.stack| - 1];
      if top.rest == [] then Next(m.(stack := Pop(m.stack), skipping := false))
      else
        var cp := top.rest[0];
        var m1 := m.(stack := Pop(m.stack) + [Frame(top.rest[1..])]);
        if m.skipping then Next(if cp.Land? then m1.(skipping := false) else m1)
        else Execute(rs, m1, cp)
  }

  /** `n` turns of the run loop, stopping early at a halt or a crash. */
  function Steps(rs: Routines, m: Machine, n: nat): StepResult
    decreases n
  {
    if n == 0 then Next(m)
    else
      match Step(rs, m)
      case Next(m') => Steps(rs, m', n - 1)
      case other => other
  }

  datatype RunResult = Finished(m: Machine) | Crashed(reason: string, m: Machine) | OutOfFuel(m: Machine)

  /** `Interpreter::run`, bounded to `fuel` turns: it returns only once the
      stack is empty. A panic ends it with the machine as it was before the
      failing instruction. */
  function Run(rs: Routines, m: Machine, fuel: nat): (r: RunResult)
    ensures r.Finished? ==> r.m.stack == []
    ensures m.output <= r.m.output
    decreases fuel
  {
    match Step(rs, m)
    case Halted => Finished(m)
    case Crash(reason) => Crashed(reason, m)
    case Next(m') => if fuel == 0 then OutOfFuel(m) else Run(rs, m', fuel - 1)
  }

  datatype ExecResult = Refused(msg: string, m: Machine) | Ran(run: RunResult)

  /** `Interpreter::execute_routine`: an undeclared name is refused with the
      machine untouched; otherwise the routine's frame is pushed and run. */
  function ExecuteRoutine(rs: Routines, m: Machine, name: string, fuel: nat): (r: ExecResult)
    ensures r.Refused? <==> name !in rs
    ensures r.Refused? ==> r == Refused(UNDECLARED_ROUTINE, m)
    ensures r.Ran? && r.run.Finished? ==> r.run.m.stack == []
    // an accepted call pushes the routine's frame, clears `jumping` and runs
    ensures name in rs ==>
      r == Ran(Run(rs, m.(stack := m.stack + [Frame(rs[name])], skipping := false), fuel))
  {
    if name !in rs then Refused(UNDECLARED_ROUTINE, m)
    else Ran(Run(rs, m.(stack := m.stack + [Frame(rs[name])], skipping := false), fuel))
  }

  /** `Interpreter::execute`: run the routine named `Main`. */
  function ExecuteMain(rs: Routines, m: Machine, fuel: nat): (r: ExecResult)
    ensures r.Refused? <==> "Main" !in rs
    ensures r.Refused? ==> r == Refused(UNDECLARED_ROUTINE, m)
    ensures "Main" in rs ==>
      r == Ran(Run(rs, m.(stack := m.stack + [Frame(rs["Main"])], skipping := false), fuel))
  {
    ExecuteRoutine(rs, m, "Main", fuel)
  }
}
