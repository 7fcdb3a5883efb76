/** What the machine's semantics guarantees, stated over the functions of module Semantics. */
module VmProperties {
  import opened Words
  import opened Wrappers
  import opened Faults
  import opened Opcodes
  import opened Decoder
  import opened Semantics

  /** The operand rule: literals 0..32767, registers 32768..32775, nothing else. */
  lemma ValueRule(reg: seq<U16>, v: int)
    requires |reg| == RegCount
    ensures 0 <= v <= MaxWord ==> Value(reg, v) == Ok(v)
    ensures RegBase <= v < RegBase + RegCount ==> Value(reg, v) == Ok(reg[v - RegBase])
    ensures v < 0 || v >= RegBase + RegCount ==> Value(reg, v) == Raise(IndexError)
  {
  }

  /** In a valid machine every operand that resolves is a word. */
  lemma ValueIsWord(m: Machine, v: int)
    requires Valid(m) && Value(m.reg, v).Ok?
    ensures IsWord(Value(m.reg, v).value)
  {
  }

  /** Writing a word to a register and reading it back gives the word. */
  lemma WriteThenReadRegister(m: Machine, r: int, v: int)
    requires |m.reg| == RegCount && RegBase <= r < RegBase + RegCount && IsWord(v)
    ensures WriteReg(m, r, v) == Outcome(m.(reg := m.reg[r - RegBase := v]), Done)
    ensures ReadReg(WriteReg(m, r, v).m.reg, r) == Ok(v)
  {
  }

  /**
   * A write target is not checked against the register range: Python's
   * negative indexing lets 32760..32767 reach registers 0..7, and every other
   * target outside 32768..32775 raises IndexError without changing anything.
   */
  lemma WriteTargetIndexing(m: Machine, r: int, v: int)
    requires |m.reg| == RegCount && IsWord(v)
    ensures RegBase - RegCount <= r < RegBase ==>
      WriteReg(m, r, v) == Outcome(m.(reg := m.reg[r - RegBase + RegCount := v]), Done)
    ensures r < RegBase - RegCount || r >= RegBase + RegCount ==>
      WriteReg(m, r, v) == Outcome(m, Raised(IndexError))
  {
  }

  /** Every register write passes through `value()`, so it keeps the machine valid. */
  lemma WriteRegPreservesValid(m: Machine, r: int, v: int)
    requires Valid(m)
    ensures Valid(WriteReg(m, r, v).m)
  {
    match Value(m.reg, v)
    case Raise(_) =>
    case Ok(x) =>
      ValueIsWord(m, v);
      var w := WriteReg(m, r, v).m;
      assert forall i :: 0 <= i < |w.reg| ==> w.reg[i] == x || w.reg[i] == m.reg[i];
  }

  lemma ExecPreservesValid(m: Machine, op: Opcode, args: seq<int>)
    requires Valid(m) && |args| == Arity(op)
    ensures Valid(Exec(m, op, args).m)
  {
    match op
    case Set => WriteRegPreservesValid(m, args[0], args[1]);
    case Pop =>
      if |m.stack| > 0 {
        WriteRegPreservesValid(PopStack(m), args[0], Top(m));
      }
    case Eq | Gt | Add | Mult | Mod | And | Or =>
      forall v | true ensures Valid(WriteReg(m, args[0], v).m) {
        WriteRegPreservesValid(m, args[0], v);
      }
    case Not | Rmem =>
      forall v | true ensures Valid(WriteReg(m, args[0], v).m) {
        WriteRegPreservesValid(m, args[0], v);
      }
    case Push | Wmem | Jmp | Jt | Jf | Ret | Out => {
      forall v | Value(m.reg, v).Ok? ensures IsWord(Value(m.reg, v).value) {
        ValueIsWord(m, v);
      }
    }
    case Call =>
      var m1 := m.(stack := m.stack + [m.pc]);
      assert Valid(m1);
      if Value(m1.reg, args[0]).Ok? {
        ValueIsWord(m1, args[0]);
      }
    case In =>
      if |m.input| > 0 {
        WriteRegPreservesValid(m.(input := m.input[1..]), args[0], m.input[0]);
      }
    case Halt | Noop =>
  }

  /**
   * The machine invariant: sizes, a word pc, word registers and a stack of
   * words hold after every step, whatever it raises.
   */
  lemma StepPreservesValid(m: Machine)
    requires Valid(m)
    ensures Valid(Step(m).m)
  {
    match Decode(m.mem, m.pc)
    case Raise(_) =>
    case Ok(ins) => ExecPreservesValid(m.(pc := ins.next), ins.op, ins.args);
  }

  lemma {:induction false} RunPreservesValid(m: Machine, fuel: nat)
    requires Valid(m)
    ensures Valid(Run(m, fuel).m)
    decreases fuel
  {
    if fuel > 0 {
      StepPreservesValid(m);
      if Step(m).status.Done? {
        RunPreservesValid(Step(m).m, fuel - 1);
      }
    }
  }

  /** A failed decode raises before pc is assigned: nothing in the machine changes. */
  lemma FailedDecodeChangesNothing(m: Machine)
    requires Valid(m) && m.mem[m.pc] > 21
    ensures Step(m) == Outcome(m, Raised(VmInvalidInstruction))
  {
    DecodeFailsOnlyOnUnknownOpcode(m.mem, m.pc);
  }

  /** `add` stores its result modulo 32768. */
  lemma AddStores(m: Machine, a: int, b: int, c: int, x: int, y: int)
    requires Valid(m) && RegBase <= a < RegBase + RegCount
    requires Value(m.reg, b) == Ok(x) && Value(m.reg, c) == Ok(y)
    ensures OpAdd(m, a, b, c) == Outcome(m.(reg := m.reg[a - RegBase := (x + y) % WordCount]), Done)
  {
    ValueIsWord(m, b);
    ValueIsWord(m, c);
    MaskIsModulo(x + y);
  }

  /** `mult` stores its result modulo 32768. */
  lemma MultStores(m: Machine, a: int, b: int, c: int, x: U16, y: U16)
    requires Valid(m) && RegBase <= a < RegBase + RegCount
    requires Value(m.reg, b) == Ok(x) && Value(m.reg, c) == Ok(y)
    ensures OpMult(m, a, b, c) == Outcome(m.(reg := m.reg[a - RegBase := (x * y) % WordCount]), Done)
  {
    ValueIsWord(m, b);
    ValueIsWord(m, c);
    var p := Product(x, y);
    MaskIsModulo(p);
    assert Operands(m, b, c) == Ok((x, y));
    assert OpMult(m, a, b, c) == WriteReg(m, a, BitAnd(p, Mask15));
  }

  /** `& 0x7FFF` is reduction modulo 32768. */
  lemma MaskIsModulo(v: nat)
    ensures BitAnd(v, Mask15) == v % WordCount
  {
    Pow2Of15();
    AndLowMask(v, 15);
  }

  /** `eq` and `gt` store exactly 1 when their comparison holds and 0 otherwise. */
  lemma ComparisonStores(m: Machine, a: int, b: int, c: int, x: int, y: int)
    requires Valid(m) && RegBase <= a < RegBase + RegCount
    requires Value(m.reg, b) == Ok(x) && Value(m.reg, c) == Ok(y)
    ensures OpEq(m, a, b, c) == Outcome(m.(reg := m.reg[a - RegBase := if x == y then 1 else 0]), Done)
    ensures OpGt(m, a, b, c) == Outcome(m.(reg := m.reg[a - RegBase := if x > y then 1 else 0]), Done)
  {
  }

  /** `and`, `or` and `not` of words are words; `not` applied twice gives the operand back. */
  lemma BitwiseStores(m: Machine, a: int, b: int, c: int, x: int, y: int)
    requires Valid(m) && RegBase <= a < RegBase + RegCount
    requires Value(m.reg, b) == Ok(x) && Value(m.reg, c) == Ok(y)
    ensures IsWord(BitAnd(x, y)) && IsWord(BitOr(x, y)) && IsWord(BitXor(x, Mask15))
    ensures OpAnd(m, a, b, c) == Outcome(m.(reg := m.reg[a - RegBase := BitAnd(x, y)]), Done)
    ensures OpOr(m, a, b, c) == Outcome(m.(reg := m.reg[a - RegBase := BitOr(x, y)]), Done)
    ensures OpNot(m, a, b) == Outcome(m.(reg := m.reg[a - RegBase := BitXor(x, Mask15)]), Done)
    ensures BitXor(BitXor(x, Mask15), Mask15) == x
  {
    ValueIsWord(m, b);
    ValueIsWord(m, c);
    Pow2Of15();
    AndAtMost(x, y);
    OrBelow(x, y, 15);
    XorBelow(x, Mask15, 15);
    XorTwice(x, Mask15);
  }

  /** `not r b` then `not r r` leaves `value(b)` in the register. */
  lemma NotTwice(m: Machine, a: int, b: int, x: int)
    requires Valid(m) && RegBase <= a < RegBase + RegCount && Value(m.reg, b) == Ok(x)
    ensures OpNot(OpNot(m, a, b).m, a, a) == Outcome(m.(reg := m.reg[a - RegBase := x]), Done)
  {
    BitwiseStores(m, a, b, b, x, x);
    var m1 := OpNot(m, a, b).m;
    BitwiseStores(m1, a, a, a, BitXor(x, Mask15), BitXor(x, Mask15));
    assert m1.reg[a - RegBase := x] == m.reg[a - RegBase := x];
  }

  /** `mod` by zero raises, and nothing catches it. */
  lemma ModByZeroRaises(m: Machine, a: int, b: int, c: int)
    requires Value(m.reg, b).Ok? && Value(m.reg, c) == Ok(0)
    ensures OpMod(m, a, b, c) == Outcome(m, Raised(ZeroDivisionError))
  {
  }

  /** `mod` by a non-zero divisor stores the remainder, which is a word. */
  lemma ModStores(m: Machine, a: int, b: int, c: int, x: int, y: int)
    requires Valid(m) && RegBase <= a < RegBase + RegCount
    requires Value(m.reg, b) == Ok(x) && Value(m.reg, c) == Ok(y) && y != 0
    ensures 0 <= x % y < y
    ensures OpMod(m, a, b, c) == Outcome(m.(reg := m.reg[a - RegBase := x % y]), Done)
  {
    ValueIsWord(m, b);
    ValueIsWord(m, c);
  }

  /** `in` consumes the first input code and stores it in the target register; an empty input raises. */
  lemma InStores(m: Machine, a: int)
    requires Valid(m) && RegBase <= a < RegBase + RegCount
    ensures |m.input| > 0 ==>
      OpIn(m, a) == Outcome(m.(input := m.input[1..], reg := m.reg[a - RegBase := m.input[0]]), Done)
    ensures |m.input| == 0 ==> OpIn(m, a) == Outcome(m, Raised(EndOfInput))
  {
  }

  /** `out` appends `value(a)` to the output and changes nothing else. */
  lemma OutAppends(m: Machine, a: int, x: int)
    requires Value(m.reg, a) == Ok(x)
    ensures OpOut(m, a) == Outcome(m.(output := m.output + [x]), Done)
  {
  }

  /** `push a` then `pop r` stores `value(a)` in register r and leaves the stack as it was. */
  lemma PushThenPop(m: Machine, a: int, r: int, x: int)
    requires Valid(m) && Value(m.reg, a) == Ok(x) && RegBase <= r < RegBase + RegCount
    ensures OpPush(m, a) == Outcome(m.(stack := m.stack + [x]), Done)
    ensures OpPop(OpPush(m, a).m, r) == Outcome(m.(reg := m.reg[r - RegBase := x]), Done)
  {
    ValueIsWord(m, a);
    var m1 := OpPush(m, a).m;
    assert PopStack(m1) == m;
  }

  /** `pop` and `ret` on an empty stack raise the halt signal and change nothing. */
  lemma EmptyStackHalts(m: Machine, a: int)
    requires m.stack == []
    ensures OpPop(m, a) == Outcome(m, Raised(VmHalted))
    ensures OpRet(m) == Outcome(m, Raised(VmHalted))
  {
  }

  /** A bad `pop` target is caught by the same handler: the value is gone and the machine halts. */
  lemma PopToBadTargetStillPops(m: Machine, a: int)
    requires Valid(m) && |m.stack| > 0
    requires a < RegBase - RegCount || a >= RegBase + RegCount
    ensures OpPop(m, a) == Outcome(PopStack(m), Raised(VmHalted))
  {
  }

  /**
   * `call a` pushes the address of the following instruction and jumps to
   * `value(a)`; a later `ret` with that entry on top returns there and
   * restores the stack.
   */
  lemma CallThenRet(m: Machine, n: Machine, t: int)
    requires Valid(m) && m.mem[m.pc] == Code(Call)
    requires Value(m.reg, m.mem[(m.pc + 1) % WordCount]) == Ok(t)
    requires n.stack == m.stack + [(m.pc + 2) % WordCount]
    ensures Step(m) == Outcome(m.(stack := m.stack + [(m.pc + 2) % WordCount], pc := t), Done)
    ensures OpRet(n) == Outcome(n.(stack := m.stack, pc := (m.pc + 2) % WordCount), Done)
  {
    TableIsBijective(m.mem[m.pc], Call);
    DecodeKnown(m.mem, m.pc, Call);
    assert (m.pc + 1 + 1) % WordCount == (m.pc + 2) % WordCount;
    assert PopStack(n) == n.(stack := m.stack);
  }

  /** `jt` and `jf` move the pc only when their condition holds, and change nothing else. */
  lemma ConditionalJumps(m: Machine, a: int, b: int, x: int)
    requires Value(m.reg, a) == Ok(x)
    ensures OpJt(m, a, b).m == m.(pc := OpJt(m, a, b).m.pc)
    ensures OpJf(m, a, b).m == m.(pc := OpJf(m, a, b).m.pc)
    ensures x == 0 ==> OpJt(m, a, b) == Outcome(m, Done)
    ensures x != 0 ==> OpJf(m, a, b) == Outcome(m, Done)
    ensures x != 0 ==> OpJt(m, a, b) == OpJmp(m, b)
    ensures x == 0 ==> OpJf(m, a, b) == OpJmp(m, b)
  {
  }

  /** `wmem a b` changes one memory cell, and `rmem r a` then reads `value(b)` back. */
  lemma WmemThenRmem(m: Machine, a: int, b: int, r: int, addr: int, x: int)
    requires Valid(m) && RegBase <= r < RegBase + RegCount
    requires Value(m.reg, a) == Ok(addr) && Value(m.reg, b) == Ok(x)
    ensures 0 <= addr < WordCount
    ensures OpWmem(m, a, b) == Outcome(m.(mem := m.mem[addr := x]), Done)
    ensures OpRmem(OpWmem(m, a, b).m, r, a) ==
      Outcome(m.(mem := m.mem[addr := x], reg := m.reg[r - RegBase := x]), Done)
  {
    ValueIsWord(m, a);
    ValueIsWord(m, b);
  }

  /**
   * `rmem` stores the word it read through `value()`: a word 32768..32775 in
   * memory copies that register, and anything larger raises IndexError.
   */
  lemma RmemResolvesStoredWord(m: Machine, a: int, b: int, addr: int)
    requires Valid(m) && RegBase <= a < RegBase + RegCount && Value(m.reg, b) == Ok(addr)
    ensures 0 <= addr < WordCount
    ensures RegBase <= m.mem[addr] < RegBase + RegCount ==>
      OpRmem(m, a, b) == Outcome(m.(reg := m.reg[a - RegBase := m.reg[m.mem[addr] - RegBase]]), Done)
    ensures m.mem[addr] >= RegBase + RegCount ==> OpRmem(m, a, b) == Outcome(m, Raised(IndexError))
  {
    ValueIsWord(m, b);
  }

  /** Only `in` consumes input and only `out` produces output; every other handler leaves both alone. */
  lemma ExecProgress(m: Machine, op: Opcode, args: seq<int>)
    requires |args| == Arity(op)
    ensures Progress(m, Exec(m, op, args).m)
    ensures op != In ==> Exec(m, op, args).m.input == m.input
    ensures op != Out ==> Exec(m, op, args).m.output == m.output
  {
    assert m.input[|m.input| - |m.input|..] == m.input;
    if op == In {
      if |m.input| > 0 {
        assert m.input[1..] == m.input[|m.input| - |m.input[1..]|..];
      }
    } else if op.Set? || op.Eq? || op.Gt? || op.Add? || op.Mult? || op.Mod? || op.And? || op.Or? || op.Not? || op.Rmem? {
      StoresKeepTerminal(m, op, args);
    } else if op != Out {
      ControlKeepsTerminal(m, op, args);
    }
  }

  /** The handlers that store into a register touch neither input nor output. */
  lemma StoresKeepTerminal(m: Machine, op: Opcode, args: seq<int>)
    requires op.Set? || op.Eq? || op.Gt? || op.Add? || op.Mult? || op.Mod? || op.And? || op.Or? || op.Not? || op.Rmem?
    requires |args| == Arity(op)
    ensures Exec(m, op, args).m.input == m.input && Exec(m, op, args).m.output == m.output
  {
    forall v | true
      ensures WriteReg(m, args[0], v).m.input == m.input && WriteReg(m, args[0], v).m.output == m.output
    {
    }
  }

  /** Control flow, stack and memory-store handlers touch neither input nor output. */
  lemma ControlKeepsTerminal(m: Machine, op: Opcode, args: seq<int>)
    requires !(op.Set? || op.Eq? || op.Gt? || op.Add? || op.Mult? || op.Mod? || op.And? || op.Or? || op.Not? || op.Rmem?)
    requires op != In && op != Out && |args| == Arity(op)
    ensures Exec(m, op, args).m.input == m.input && Exec(m, op, args).m.output == m.output
  {
  }

  lemma ProgressTransitive(a: Machine, b: Machine, c: Machine)
    requires Progress(a, b) && Progress(b, c)
    ensures Progress(a, c)
  {
    var i := |a.input| - |b.input|;
    var k := |b.input| - |c.input|;
    assert c.input == b.input[k..] == a.input[i..][k..];
    assert a.input[i..][k..] == a.input[|a.input| - |c.input|..];
  }

  /** A step consumes input only from the front and only appends output. */
  lemma StepProgress(m: Machine)
    ensures Progress(m, Step(m).m)
  {
    match Decode(m.mem, m.pc)
    case Raise(_) =>
      assert m.input[|m.input| - |m.input|..] == m.input;
    case Ok(ins) =>
      var m1 := m.(pc := ins.next);
      ExecProgress(m1, ins.op, ins.args);
  }

  /** The same holds for a whole run of `execute`: the terminal is read in order and written in order. */
  lemma {:induction false} RunProgress(m: Machine, fuel: nat)
    ensures Progress(m, Run(m, fuel).m)
    decreases fuel, 0
  {
    if fuel == 0 {
      assert m.input[|m.input| - |m.input|..] == m.input;
    } else {
      StepProgress(m);
      ContinueProgress(Step(m), fuel - 1);
      ProgressTransitive(m, Step(m).m, Run(m, fuel).m);
    }
  }

  lemma {:induction false} ContinueProgress(o: Outcome, fuel: nat)
    ensures Progress(o.m, Continue(o, fuel).m)
    decreases fuel, 1
  {
    if o.status.Done? {
      RunProgress(o.m, fuel);
    } else {
      assert o.m.input[|o.m.input| - |o.m.input|..] == o.m.input;
    }
  }

  /** Once `execute` has stopped, more steps change nothing. */
  lemma {:induction false} RunIsStable(m: Machine, f: nat, g: nat)
    requires f <= g && Run(m, f).stop != OutOfFuel
    ensures Run(m, g) == Run(m, f)
    decreases f, 0
  {
    assert f > 0;
    RunThenContinue(m, f);
    RunThenContinue(m, g);
    ContinueIsStable(Step(m), f - 1, g - 1);
  }

  /** With steps left, `execute` takes one step and continues from its outcome. */
  lemma RunThenContinue(m: Machine, fuel: nat)
    requires fuel > 0
    ensures Run(m, fuel) == Continue(Step(m), fuel - 1)
  {
  }

  lemma {:induction false} ContinueIsStable(o: Outcome, f: nat, g: nat)
    requires f <= g && Continue(o, f).stop != OutOfFuel
    ensures Continue(o, g) == Continue(o, f)
    decreases f, 1
  {
    if o.status.Done? {
      RunIsStable(o.m, f, g);
    }
  }

  /** `set r0 4; out r0; halt` writes character 4 and halts with pc past the `halt`. */
  lemma SetOutHaltExample(image: seq<U16>, fuel: nat)
    requires image == [1, 32768, 4, 19, 32768, 0] && fuel >= 3
    ensures var r := Run(Boot(image, []), fuel);
      r.stop == Halted && r.m.output == [4] && r.m.pc == 6 && r.m.reg == Boot(image, []).reg[0 := 4]
  {
    var m0 := Boot(image, []);
    var m1 := m0.(pc := 3, reg := m0.reg[0 := 4]);
    var m2 := m1.(pc := 5, output := [4]);
    ExampleSteps(image, m0, m1, m2);
    RunUnfolds(m0, fuel);
    RunUnfolds(m1, fuel - 1);
    RunUnfolds(m2, fuel - 2);
  }

  /** One step of `execute`. */
  lemma RunUnfolds(m: Machine, fuel: nat)
    requires fuel > 0
    ensures Step(m).status == Done ==> Run(m, fuel) == Run(Step(m).m, fuel - 1)
    ensures Step(m).status == Raised(VmHalted) ==> Run(m, fuel) == RunResult(Step(m).m, Halted)
  {
  }

  lemma ExampleSteps(image: seq<U16>, m0: Machine, m1: Machine, m2: Machine)
    requires image == [1, 32768, 4, 19, 32768, 0] && m0 == Boot(image, [])
    requires m1 == m0.(pc := 3, reg := m0.reg[0 := 4])
    requires m2 == m1.(pc := 5, output := [4])
    ensures Step(m0) == Outcome(m1, Done)
    ensures Step(m1) == Outcome(m2, Done)
    ensures Step(m2) == Outcome(m2.(pc := 6), Raised(VmHalted))
  {
    assert m0.mem[0] == 1 && m0.mem[1] == 32768 && m0.mem[2] == 4;
    assert m0.mem[3] == 19 && m0.mem[4] == 32768 && m0.mem[5] == 0;
    DecodeKnown(m0.mem, 0, Set);
    DecodeKnown(m0.mem, 3, Out);
    DecodeKnown(m0.mem, 5, Halt);
  }
}
