/**
 * The meaning of every operation of the virtual machine (vm.py), as
 * functions from the machine state before a call to the state after it and
 * the exception it raised, if any. The class in vm.dfy is proved to follow
 * these functions step by step.
 */
module Semantics {
  import opened Words
  import opened Wrappers
  import opened PySeq
  import opened Faults
  import opened Opcodes
  import opened Decoder

  /** Number of registers. */
  const RegCount: nat := 8
  /** Operand value naming register 0; registers are 32768..32775. */
  const RegBase: nat := 32768

  /**
   * The architectural state. `mem` and `reg` are the `'H'` arrays, `stack` the
   * Python list (top at the end). `input` and `output` stand for the terminal
   * that `in` and `out` talk to.
   */
  datatype Machine = Machine(
    mem: seq<U16>,
    reg: seq<U16>,
    stack: seq<int>,
    pc: nat,
    input: seq<U8>,
    output: seq<int>)

  /** How a call ended: normally, or by raising an exception. */
  datatype Status = Done | Raised(exc: Exc)

  /** The state after a call, and how the call ended. */
  datatype Outcome = Outcome(m: Machine, status: Status)

  /** Why `execute` stopped: the halt signal, another exception, or the step budget ran out. */
  datatype Stop = Halted | Failed(exc: Exc) | OutOfFuel
  datatype RunResult = RunResult(m: Machine, stop: Stop)

  /** A machine as built by the constructor: sizes right, and every register, stack entry and pc a word. */
  ghost predicate Valid(m: Machine)
  {
    && |m.mem| == WordCount
    && |m.reg| == RegCount
    && m.pc < WordCount
    && (forall i :: 0 <= i < |m.reg| ==> IsWord(m.reg[i]))
    && (forall i :: 0 <= i < |m.stack| ==> IsWord(m.stack[i]))
  }

  /** A fresh machine (vm.py:41-46) with `image` loaded at address 0. */
  function Boot(image: seq<U16>, input: seq<U8>): (m: Machine)
    requires |image| <= WordCount
    ensures Valid(m) && m.mem[..|image|] == image
    ensures forall k :: |image| <= k < WordCount ==> m.mem[k] == 0
    ensures m.reg == seq(RegCount, _ => 0) && m.stack == [] && m.pc == 0
    ensures m.input == input && m.output == []
  {
    Machine(image + seq(WordCount - |image|, _ => 0), seq(RegCount, _ => 0), [], 0, input, [])
  }

  /** `read_reg(r)`: register `r - 32768`, with Python's negative indexing. */
  function ReadReg(reg: seq<U16>, r: int): (res: Res<U16>)
    ensures res.Ok? <==> RegBase - |reg| <= r < RegBase + |reg|
    ensures RegBase <= r < RegBase + |reg| ==> res == Ok(reg[r - RegBase])
    ensures RegBase - |reg| <= r < RegBase ==> res == Ok(reg[r - RegBase + |reg|])
    ensures res.Raise? ==> res.exc == IndexError
  {
    match PyIndex(r - RegBase, |reg|)
    case None => Raise(IndexError)
    case Some(i) => Ok(reg[i])
  }

  /** The operand rule `value(v)`: a literal word stands for itself, anything else names a register. */
  function Value(reg: seq<U16>, v: int): (res: Res<U16>)
    ensures 0 <= v <= MaxWord ==> res == Ok(v)
    ensures RegBase <= v < RegBase + |reg| ==> res == Ok(reg[v - RegBase])
    ensures |reg| <= RegBase ==> (res.Ok? <==> 0 <= v < RegBase + |reg|)
    ensures res.Raise? ==> res.exc == IndexError
  {
    if 0 <= v <= MaxWord then Ok(v) else ReadReg(reg, v)
  }

  /** `write_reg(r, v)`: the value passes through `value()` first, then register `r - 32768` is stored. */
  function WriteReg(m: Machine, r: int, v: int): Outcome
  {
    match Value(m.reg, v)
    case Raise(e) => Outcome(m, Raised(e))
    case Ok(x) =>
      match PyIndex(r - RegBase, |m.reg|)
      case None => Outcome(m, Raised(IndexError))
      case Some(i) => Outcome(m.(reg := m.reg[i := x]), Done)
  }

  /** `read_mem(addr)`: any IndexError on the way becomes the halt signal. */
  function ReadMem(m: Machine, addr: int): Res<U16>
  {
    match Value(m.reg, addr)
    case Raise(_) => Raise(VmHalted)
    case Ok(a) => if a < |m.mem| then Ok(m.mem[a]) else Raise(VmHalted)
  }

  /** `write_mem(addr, v)`: both operands are resolved; any IndexError becomes the halt signal. */
  function WriteMem(m: Machine, addr: int, v: int): Outcome
  {
    match Value(m.reg, v)
    case Raise(_) => Outcome(m, Raised(VmHalted))
    case Ok(x) =>
      match Value(m.reg, addr)
      case Raise(_) => Outcome(m, Raised(VmHalted))
      case Ok(a) =>
        if a < |m.mem| then Outcome(m.(mem := m.mem[a := x]), Done)
        else Outcome(m, Raised(VmHalted))
  }

  /** The stack without its top entry. */
  function PopStack(m: Machine): Machine
    requires |m.stack| > 0
  {
    m.(stack := m.stack[..|m.stack| - 1])
  }

  function Top(m: Machine): int
    requires |m.stack| > 0
  {
    m.stack[|m.stack| - 1]
  }

  // The handlers. Each receives the machine with the pc already past the instruction.

  function OpHalt(m: Machine): Outcome
  {
    Outcome(m, Raised(VmHalted))
  }

  function OpSet(m: Machine, a: int, b: int): Outcome
  {
    WriteReg(m, a, b)
  }

  function OpPush(m: Machine, a: int): Outcome
  {
    match Value(m.reg, a)
    case Raise(e) => Outcome(m, Raised(e))
    case Ok(x) => Outcome(m.(stack := m.stack + [x]), Done)
  }

  /** `op_pop`: an empty stack, and also a failing register write, end in the halt signal. */
  function OpPop(m: Machine, a: int): Outcome
  {
    if |m.stack| == 0 then Outcome(m, Raised(VmHalted))
    else
      var w := WriteReg(PopStack(m), a, Top(m));
      if w.status.Done? then w else Outcome(PopStack(m), Raised(VmHalted))
  }

  function OpEq(m: Machine, a: int, b: int, c: int): Outcome
  {
    match Value(m.reg, b)
    case Raise(e) => Outcome(m, Raised(e))
    case Ok(x) =>
      match Value(m.reg, c)
      case Raise(e) => Outcome(m, Raised(e))
      case Ok(y) => WriteReg(m, a, if x == y then 1 else 0)
  }

  function OpGt(m: Machine, a: int, b: int, c: int): Outcome
  {
    match Value(m.reg, b)
    case Raise(e) => Outcome(m, Raised(e))
    case Ok(x) =>
      match Value(m.reg, c)
      case Raise(e) => Outcome(m, Raised(e))
      case Ok(y) => WriteReg(m, a, if x > y then 1 else 0)
  }

  function OpJmp(m: Machine, a: int): Outcome
  {
    match Value(m.reg, a)
    case Raise(e) => Outcome(m, Raised(e))
    case Ok(x) => Outcome(m.(pc := x), Done)
  }

  function OpJt(m: Machine, a: int, b: int): Outcome
  {
    match Value(m.reg, a)
    case Raise(e) => Outcome(m, Raised(e))
    case Ok(x) => if x != 0 then OpJmp(m, b) else Outcome(m, Done)
  }

  function OpJf(m: Machine, a: int, b: int): Outcome
  {
    match Value(m.reg, a)
    case Raise(e) => Outcome(m, Raised(e))
    case Ok(x) => if x == 0 then OpJmp(m, b) else Outcome(m, Done)
  }

  /** The operands of a three-operand arithmetic instruction, `value(b)` before `value(c)`. */
  function Operands(m: Machine, b: int, c: int): Res<(U16, U16)>
  {
    match Value(m.reg, b)
    case Raise(e) => Raise(e)
    case Ok(x) =>
      match Value(m.reg, c)
      case Raise(e) => Raise(e)
      case Ok(y) => Ok((x, y))
  }

  /** `op_add`: `(b + c) & 0x7FFF`. */
  function OpAdd(m: Machine, a: int, b: int, c: int): Outcome
  {
    match Operands(m, b, c)
    case Raise(e) => Outcome(m, Raised(e))
    case Ok((x, y)) => WriteReg(m, a, BitAnd(x + y, Mask15))
  }

  /** `op_mult`: `(b * c) & 0x7FFF`. */
  function OpMult(m: Machine, a: int, b: int, c: int): Outcome
  {
    match Operands(m, b, c)
    case Raise(e) => Outcome(m, Raised(e))
    case Ok((x, y)) => WriteReg(m, a, BitAnd(Product(x, y), Mask15))
  }

  /** `op_mod`: Python's `%`; a zero divisor raises ZeroDivisionError, which nothing catches. */
  function OpMod(m: Machine, a: int, b: int, c: int): Outcome
  {
    match Operands(m, b, c)
    case Raise(e) => Outcome(m, Raised(e))
    case Ok((x, y)) => if y == 0 then Outcome(m, Raised(ZeroDivisionError)) else WriteReg(m, a, x % y)
  }

  function OpAnd(m: Machine, a: int, b: int, c: int): Outcome
  {
    match Operands(m, b, c)
    case Raise(e) => Outcome(m, Raised(e))
    case Ok((x, y)) => WriteReg(m, a, BitAnd(x, y))
  }

  function OpOr(m: Machine, a: int, b: int, c: int): Outcome
  {
    match Operands(m, b, c)
    case Raise(e) => Outcome(m, Raised(e))
    case Ok((x, y)) => WriteReg(m, a, BitOr(x, y))
  }

  /** `op_not`: `value(b) ^ 0x7FFF`. */
  function OpNot(m: Machine, a: int, b: int): Outcome
  {
    match Value(m.reg, b)
    case Raise(e) => Outcome(m, Raised(e))
    case Ok(x) => WriteReg(m, a, BitXor(x, Mask15))
  }

  /** `op_rmem`: the word read is stored through `write_reg`, so it is itself resolved by `value()`. */
  function OpRmem(m: Machine, a: int, b: int): Outcome
  {
    match ReadMem(m, b)
    case Raise(e) => Outcome(m, Raised(e))
    case Ok(x) => WriteReg(m, a, x)
  }

  /** `op_wmem`: `value(b)` is taken outside `write_mem`'s handler, so its IndexError escapes. */
  function OpWmem(m: Machine, a: int, b: int): Outcome
  {
    match Value(m.reg, b)
    case Raise(e) => Outcome(m, Raised(e))
    case Ok(x) => WriteMem(m, a, x)
  }

  /** `op_call`: the pc (already past the call) is pushed before the target is resolved. */
  function OpCall(m: Machine, a: int): Outcome
  {
    OpJmp(m.(stack := m.stack + [m.pc]), a)
  }

  /** `op_ret`: an empty stack, or a popped value that is not an operand, ends in the halt signal. */
  function OpRet(m: Machine): Outcome
  {
    if |m.stack| == 0 then Outcome(m, Raised(VmHalted))
    else
      var j := OpJmp(PopStack(m), Top(m));
      if j.status.Done? then j else Outcome(PopStack(m), Raised(VmHalted))
  }

  /** `op_out`: the character code is appended to the output. */
  function OpOut(m: Machine, a: int): Outcome
  {
    match Value(m.reg, a)
    case Raise(e) => Outcome(m, Raised(e))
    case Ok(x) => Outcome(m.(output := m.output + [x]), Done)
  }

  /** `op_in`: one character is consumed, then its code is stored through `write_reg`. */
  function OpIn(m: Machine, a: int): Outcome
  {
    if |m.input| == 0 then Outcome(m, Raised(EndOfInput))
    else WriteReg(m.(input := m.input[1..]), a, m.input[0])
  }

  function OpNoop(m: Machine): Outcome
  {
    Outcome(m, Done)
  }

  /**
   * How the terminal moves between two states: input is consumed from the
   * front and output only grows at the end.
   */
  predicate Progress(before: Machine, after: Machine)
  {
    && |after.input| <= |before.input|
    && after.input == before.input[|before.input| - |after.input|..]
    && before.output <= after.output
  }

  /** Dispatch of `step` (vm.py:90): the handler named by the opcode, applied to the raw arguments. */
  function Exec(m: Machine, op: Opcode, args: seq<int>): Outcome
    requires |args| == Arity(op)
  {
    match op
    case Halt => OpHalt(m)
    case Set => OpSet(m, args[0], args[1])
    case Push => OpPush(m, args[0])
    case Pop => OpPop(m, args[0])
    case Eq => OpEq(m, args[0], args[1], args[2])
    case Gt => OpGt(m, args[0], args[1], args[2])
    case Jmp => OpJmp(m, args[0])
    case Jt => OpJt(m, args[0], args[1])
    case Jf => OpJf(m, args[0], args[1])
    case Add => OpAdd(m, args[0], args[1], args[2])
    case Mult => OpMult(m, args[0], args[1], args[2])
    case Mod => OpMod(m, args[0], args[1], args[2])
    case And => OpAnd(m, args[0], args[1], args[2])
    case Or => OpOr(m, args[0], args[1], args[2])
    case Not => OpNot(m, args[0], args[1])
    case Rmem => OpRmem(m, args[0], args[1])
    case Wmem => OpWmem(m, args[0], args[1])
    case Call => OpCall(m, args[0])
    case Ret => OpRet(m)
    case Out => OpOut(m, args[0])
    case In => OpIn(m, args[0])
    case Noop => OpNoop(m)
  }

  /** `step`: decode at pc; only a successful decode moves pc, then the handler runs. */
  function Step(m: Machine): (r: Outcome)
  {
    match Decode(m.mem, m.pc)
    case Raise(e) => Outcome(m, Raised(e))
    case Ok(ins) => Exec(m.(pc := ins.next), ins.op, ins.args)
  }

  /** `execute`, given at most `fuel` steps: stops on the halt signal, and on any other exception. */
  function Run(m: Machine, fuel: nat): (r: RunResult)
    decreases fuel, 0
  {
    if fuel == 0 then RunResult(m, OutOfFuel)
    else Continue(Step(m), fuel - 1)
  }

  /** What `execute` does after a step ended with `o`, with `fuel` steps left. */
  function Continue(o: Outcome, fuel: nat): (r: RunResult)
    decreases fuel, 1
  {
    match o.status
    case Done => Run(o.m, fuel)
    case Raised(e) => if e == VmHalted then RunResult(o.m, Halted) else RunResult(o.m, Failed(e))
  }
}
