/**
 * The virtual machine as the object vm.py builds (vm.py:39-310): memory and
 * registers are arrays updated in place, the stack and the pc are fields the
 * handlers reassign. Every method is proved to do exactly what the matching
 * function of module Semantics says, so the lemmas of VmProperties apply to it.
 */
module Vm {
  import opened Words
  import opened Wrappers
  import opened PySeq
  import opened Faults
  import opened Opcodes
  import opened Decoder
  import S = Semantics
  import P = VmProperties

  class VirtualMachine {
    const mem: array<U16>
    const reg: array<U16>
    var stack: seq<int>
    var pc: nat
    /** The characters `in` has still to read. */
    var input: seq<U8>
    /** The character codes `out` has written. */
    var output: seq<int>

    /** The abstract state the semantics talks about. */
    ghost function Snapshot(): S.Machine
      reads this, mem, reg
    {
      S.Machine(mem[..], reg[..], stack, pc, input, output)
    }

    /** Two distinct arrays of the right sizes, and the machine invariant of Semantics. */
    ghost predicate Valid()
      reads this, mem, reg
    {
      mem != reg && S.Valid(Snapshot())
    }

    /** `__init__` followed by loading `image` at address 0. */
    constructor (image: seq<U16>, input: seq<U8>)
      requires |image| <= WordCount
      ensures Valid() && Snapshot() == S.Boot(image, input)
    {
      var m := new U16[WordCount](_ => 0);
      var i := 0;
      while i < |image|
        invariant 0 <= i <= |image|
        invariant forall k :: 0 <= k < i ==> m[k] == image[k]
        invariant forall k :: i <= k < WordCount ==> m[k] == 0
      {
        m[i] := image[i];
        i := i + 1;
      }
      mem := m;
      reg := new U16[S.RegCount](_ => 0);
      stack := [];
      pc := 0;
      this.input := input;
      output := [];
      new;
      assert mem[..] == S.Boot(image, input).mem;
    }

    /** `regs()`: each register with its name. */
    function Regs(): (r: seq<(string, U16)>)
      requires reg.Length == S.RegCount
      reads this, reg
      ensures |r| == reg.Length
      ensures forall i :: 0 <= i < |r| ==> r[i].1 == reg[i]
      ensures r[0].0 == "r0" && r[1].0 == "r1" && r[2].0 == "r2" && r[3].0 == "r3"
      ensures r[4].0 == "r4" && r[5].0 == "r5" && r[6].0 == "r6" && r[7].0 == "r7"
    {
      assert ('0' as int + 0) as char == '0' && ('0' as int + 1) as char == '1';
      assert ('0' as int + 2) as char == '2' && ('0' as int + 3) as char == '3';
      assert ('0' as int + 4) as char == '4' && ('0' as int + 5) as char == '5';
      assert ('0' as int + 6) as char == '6' && ('0' as int + 7) as char == '7';
      seq(reg.Length, i reads reg requires 0 <= i < reg.Length => ("r" + [('0' as int + i) as char], reg[i]))
    }

    /** `peek(address, length)`: a slice of memory, from 0 and to the end by default. */
    function Peek(address: Option<int>, length: Option<int>): (r: seq<U16>)
      reads this, mem
      ensures address.Some? && length.Some? && 0 <= address.value <= address.value + length.value <= mem.Length ==>
        r == mem[address.value..address.value + length.value]
      ensures address.None? && length.None? ==> r == mem[..]
      ensures address.Some? && length.None? && 0 <= address.value <= mem.Length ==> r == mem[address.value..]
      ensures address.None? && length.Some? && 0 <= length.value <= mem.Length ==> r == mem[..length.value]
      ensures |r| <= mem.Length
    {
      var a := if address.None? then 0 else address.value;
      if length.None? then PySlice(mem[..], a, mem.Length) else PySlice(mem[..], a, a + length.value)
    }

    /** `write_reg(r, v)`. */
    method WriteReg(r: int, v: int) returns (status: S.Status)
      requires Valid()
      modifies reg
      ensures Valid()
      ensures S.Outcome(Snapshot(), status) == S.WriteReg(old(Snapshot()), r, v)
    {
      ghost var m := Snapshot();
      P.WriteRegPreservesValid(m, r, v);
      var x := S.Value(reg[..], v);
      if x.Raise? {
        return S.Raised(x.exc);
      }
      var i := PyIndex(r - S.RegBase, reg.Length);
      if i.None? {
        return S.Raised(IndexError);
      }
      reg[i.value] := x.value;
      status := S.Done;
    }

    /** `read_mem(addr)`. */
    method ReadMem(addr: int) returns (r: Res<U16>)
      requires Valid()
      ensures r == S.ReadMem(Snapshot(), addr)
    {
      var a := S.Value(reg[..], addr);
      if a.Raise? || a.value >= mem.Length {
        return Raise(VmHalted);
      }
      r := Ok(mem[a.value]);
    }

    /** `write_mem(addr, v)`. */
    method WriteMem(addr: int, v: int) returns (status: S.Status)
      requires Valid()
      modifies mem
      ensures Valid()
      ensures S.Outcome(Snapshot(), status) == S.WriteMem(old(Snapshot()), addr, v)
    {
      var x := S.Value(reg[..], v);
      if x.Raise? {
        return S.Raised(VmHalted);
      }
      var a := S.Value(reg[..], addr);
      if a.Raise? || a.value >= mem.Length {
        return S.Raised(VmHalted);
      }
      P.ValueIsWord(Snapshot(), v);
      mem[a.value] := x.value;
      status := S.Done;
    }

    method OpHalt() returns (status: S.Status)
      ensures status == S.OpHalt(Snapshot()).status
    {
      status := S.Raised(VmHalted);
    }

    method OpSet(a: int, b: int) returns (status: S.Status)
      requires Valid()
      modifies reg
      ensures Valid()
      ensures S.Outcome(Snapshot(), status) == S.OpSet(old(Snapshot()), a, b)
    {
      status := WriteReg(a, b);
    }

    method OpPush(a: int) returns (status: S.Status)
      requires Valid()
      modifies this
      ensures Valid()
      ensures S.Outcome(Snapshot(), status) == S.OpPush(old(Snapshot()), a)
    {
      ghost var m := Snapshot();
      P.ExecPreservesValid(m, Push, [a]);
      var x := S.Value(reg[..], a);
      if x.Raise? {
        return S.Raised(x.exc);
      }
      stack := stack + [x.value];
      status := S.Done;
    }

    method OpPop(a: int) returns (status: S.Status)
      requires Valid()
      modifies this, reg
      ensures Valid()
      ensures S.Outcome(Snapshot(), status) == S.OpPop(old(Snapshot()), a)
    {
      if |stack| == 0 {
        return S.Raised(VmHalted);
      }
      var top := stack[|stack| - 1];
      stack := stack[..|stack| - 1];
      status := WriteReg(a, top);
      if status.Raised? {
        status := S.Raised(VmHalted);
      }
    }

    method OpEq(a: int, b: int, c: int) returns (status: S.Status)
      requires Valid()
      modifies reg
      ensures Valid()
      ensures S.Outcome(Snapshot(), status) == S.OpEq(old(Snapshot()), a, b, c)
    {
      var x := S.Value(reg[..], b);
      if x.Raise? {
        return S.Raised(x.exc);
      }
      var y := S.Value(reg[..], c);
      if y.Raise? {
        return S.Raised(y.exc);
      }
      status := WriteReg(a, if x.value == y.value then 1 else 0);
    }

    method OpGt(a: int, b: int, c: int) returns (status: S.Status)
      requires Valid()
      modifies reg
      ensures Valid()
      ensures S.Outcome(Snapshot(), status) == S.OpGt(old(Snapshot()), a, b, c)
    {
      var x := S.Value(reg[..], b);
      if x.Raise? {
        return S.Raised(x.exc);
      }
      var y := S.Value(reg[..], c);
      if y.Raise? {
        return S.Raised(y.exc);
      }
      status := WriteReg(a, if x.value > y.value then 1 else 0);
    }

    method OpJmp(a: int) returns (status: S.Status)
      requires Valid()
      modifies this
      ensures Valid()
      ensures S.Outcome(Snapshot(), status) == S.OpJmp(old(Snapshot()), a)
    {
      ghost var m := Snapshot();
      P.ExecPreservesValid(m, Jmp, [a]);
      var x := S.Value(reg[..], a);
      if x.Raise? {
        return S.Raised(x.exc);
      }
      pc := x.value;
      status := S.Done;
    }

    method OpJt(a: int, b: int) returns (status: S.Status)
      requires Valid()
      modifies this
      ensures Valid()
      ensures S.Outcome(Snapshot(), status) == S.OpJt(old(Snapshot()), a, b)
    {
      var x := S.Value(reg[..], a);
      if x.Raise? {
        return S.Raised(x.exc);
      }
      status := S.Done;
      if x.value != 0 {
        status := OpJmp(b);
      }
    }

    method OpJf(a: int, b: int) returns (status: S.Status)
      requires Valid()
      modifies this
      ensures Valid()
      ensures S.Outcome(Snapshot(), status) == S.OpJf(old(Snapshot()), a, b)
    {
      var x := S.Value(reg[..], a);
      if x.Raise? {
        return S.Raised(x.exc);
      }
      status := S.Done;
      if x.value == 0 {
        status := OpJmp(b);
      }
    }

    method OpAdd(a: int, b: int, c: int) returns (status: S.Status)
      requires Valid()
      modifies reg
      ensures Valid()
      ensures S.Outcome(Snapshot(), status) == S.OpAdd(old(Snapshot()), a, b, c)
    {
      var x := S.Value(reg[..], b);
      if x.Raise? {
        return S.Raised(x.exc);
      }
      var y := S.Value(reg[..], c);
      if y.Raise? {
        return S.Raised(y.exc);
      }
      status := WriteReg(a, BitAnd(x.value + y.value, Mask15));
    }

    method OpMult(a: int, b: int, c: int) returns (status: S.Status)
      requires Valid()
      modifies reg
      ensures Valid()
      ensures S.Outcome(Snapshot(), status) == S.OpMult(old(Snapshot()), a, b, c)
    {
      var x := S.Value(reg[..], b);
      if x.Raise? {
        return S.Raised(x.exc);
      }
      var y := S.Value(reg[..], c);
      if y.Raise? {
        return S.Raised(y.exc);
      }
      status := WriteReg(a, BitAnd(Product(x.value, y.value), Mask15));
    }

    method OpMod(a: int, b: int, c: int) returns (status: S.Status)
      requires Valid()
      modifies reg
      ensures Valid()
      ensures S.Outcome(Snapshot(), status) == S.OpMod(old(Snapshot()), a, b, c)
    {
      var x := S.Value(reg[..], b);
      if x.Raise? {
        return S.Raised(x.exc);
      }
      var y := S.Value(reg[..], c);
      if y.Raise? {
        return S.Raised(y.exc);
      }
      if y.value == 0 {
        return S.Raised(ZeroDivisionError);
      }
      status := WriteReg(a, x.value % y.value);
    }

    method OpAnd(a: int, b: int, c: int) returns (status: S.Status)
      requires Valid()
      modifies reg
      ensures Valid()
      ensures S.Outcome(Snapshot(), status) == S.OpAnd(old(Snapshot()), a, b, c)
    {
      var x := S.Value(reg[..], b);
      if x.Raise? {
        return S.Raised(x.exc);
      }
      var y := S.Value(reg[..], c);
      if y.Raise? {
        return S.Raised(y.exc);
      }
      status := WriteReg(a, BitAnd(x.value, y.value));
    }

    method OpOr(a: int, b: int, c: int) returns (status: S.Status)
      requires Valid()
      modifies reg
      ensures Valid()
      ensures S.Outcome(Snapshot(), status) == S.OpOr(old(Snapshot()), a, b, c)
    {
      var x := S.Value(reg[..], b);
      if x.Raise? {
        return S.Raised(x.exc);
      }
      var y := S.Value(reg[..], c);
      if y.Raise? {
        return S.Raised(y.exc);
      }
      status := WriteReg(a, BitOr(x.value, y.value));
    }

    method OpNot(a: int, b: int) returns (status: S.Status)
      requires Valid()
      modifies reg
      ensures Valid()
      ensures S.Outcome(Snapshot(), status) == S.OpNot(old(Snapshot()), a, b)
    {
      var x := S.Value(reg[..], b);
      if x.Raise? {
        return S.Raised(x.exc);
      }
      status := WriteReg(a, BitXor(x.value, Mask15));
    }

    method OpRmem(a: int, b: int) returns (status: S.Status)
      requires Valid()
      modifies reg
      ensures Valid()
      ensures S.Outcome(Snapshot(), status) == S.OpRmem(old(Snapshot()), a, b)
    {
      var x := ReadMem(b);
      if x.Raise? {
        return S.Raised(x.exc);
      }
      status := WriteReg(a, x.value);
    }

    method OpWmem(a: int, b: int) returns (status: S.Status)
      requires Valid()
      modifies mem
      ensures Valid()
      ensures S.Outcome(Snapshot(), status) == S.OpWmem(old(Snapshot()), a, b)
    {
      var x := S.Value(reg[..], b);
      if x.Raise? {
        return S.Raised(x.exc);
      }
      status := WriteMem(a, x.value);
    }

    method OpCall(a: int) returns (status: S.Status)
      requires Valid()
      modifies this
      ensures Valid()
      ensures S.Outcome(Snapshot(), status) == S.OpCall(old(Snapshot()), a)
    {
      stack := stack + [pc];
      status := OpJmp(a);
    }

    method OpRet() returns (status: S.Status)
      requires Valid()
      modifies this
      ensures Valid()
      ensures S.Outcome(Snapshot(), status) == S.OpRet(old(Snapshot()))
    {
      if |stack| == 0 {
        return S.Raised(VmHalted);
      }
      var top := stack[|stack| - 1];
      stack := stack[..|stack| - 1];
      status := OpJmp(top);
      if status.Raised? {
        status := S.Raised(VmHalted);
      }
    }

    method OpOut(a: int) returns (status: S.Status)
      requires Valid()
      modifies this
      ensures Valid()
      ensures S.Outcome(Snapshot(), status) == S.OpOut(old(Snapshot()), a)
    {
      var x := S.Value(reg[..], a);
      if x.Raise? {
        return S.Raised(x.exc);
      }
      output := output + [x.value];
      status := S.Done;
    }

    method OpIn(a: int) returns (status: S.Status)
      requires Valid()
      modifies this, reg
      ensures Valid()
      ensures S.Outcome(Snapshot(), status) == S.OpIn(old(Snapshot()), a)
    {
      if |input| == 0 {
        return S.Raised(EndOfInput);
      }
      var c := input[0];
      input := input[1..];
      status := WriteReg(a, c);
    }

    method OpNoop() returns (status: S.Status)
      ensures status == S.OpNoop(Snapshot()).status
    {
      status := S.Done;
    }

    /** The handler named by the opcode, called with the raw arguments. */
    method Dispatch(op: Opcode, args: seq<int>) returns (status: S.Status)
      requires Valid() && |args| == Arity(op)
      modifies this, mem, reg
      ensures Valid()
      ensures S.Outcome(Snapshot(), status) == S.Exec(old(Snapshot()), op, args)
    {
      match op
      case Halt => status := OpHalt();
      case Set => status := OpSet(args[0], args[1]);
      case Push => status := OpPush(args[0]);
      case Pop => status := OpPop(args[0]);
      case Eq => status := OpEq(args[0], args[1], args[2]);
      case Gt => status := OpGt(args[0], args[1], args[2]);
      case Jmp => status := OpJmp(args[0]);
      case Jt => status := OpJt(args[0], args[1]);
      case Jf => status := OpJf(args[0], args[1]);
      case Add => status := OpAdd(args[0], args[1], args[2]);
      case Mult => status := OpMult(args[0], args[1], args[2]);
      case Mod => status := OpMod(args[0], args[1], args[2]);
      case And => status := OpAnd(args[0], args[1], args[2]);
      case Or => status := OpOr(args[0], args[1], args[2]);
      case Not => status := OpNot(args[0], args[1]);
      case Rmem => status := OpRmem(args[0], args[1]);
      case Wmem => status := OpWmem(args[0], args[1]);
      case Call => status := OpCall(args[0]);
      case Ret => status := OpRet();
      case Out => status := OpOut(args[0]);
      case In => status := OpIn(args[0]);
      case Noop => status := OpNoop();
    }

    /** `fetch_instruction`: decode at pc, and move pc only when decoding succeeded. */
    method FetchInstruction() returns (r: Res<Instr>)
      requires Valid()
      modifies this
      ensures Valid()
      ensures r == Decode(old(mem[..]), old(pc))
      ensures Snapshot() == if r.Ok? then old(Snapshot()).(pc := r.value.next) else old(Snapshot())
    {
      r := FetchInstructionMem(mem, pc);
      if r.Ok? {
        pc := r.value.next;
      }
    }

    /** `step`: one instruction. */
    method Step() returns (status: S.Status)
      requires Valid()
      modifies this, mem, reg
      ensures Valid()
      ensures S.Outcome(Snapshot(), status) == S.Step(old(Snapshot()))
    {
      var d := FetchInstruction();
      match d
      case Raise(e) => status := S.Raised(e);
      case Ok(ins) => status := Dispatch(ins.op, ins.args);
    }

    /** `execute`, with at most `fuel` steps: runs until the halt signal or another exception. */
    method Execute(fuel: nat) returns (stop: S.Stop)
      requires Valid()
      modifies this, mem, reg
      ensures Valid()
      ensures S.RunResult(Snapshot(), stop) == S.Run(old(Snapshot()), fuel)
    {
      var left := fuel;
      while left > 0
        invariant Valid()
        invariant S.Run(Snapshot(), left) == S.Run(old(Snapshot()), fuel)
        decreases left
      {
        var status := Step();
        match status
        case Done =>
          left := left - 1;
        case Raised(e) =>
          return if e == VmHalted then S.Halted else S.Failed(e);
      }
      stop := S.OutOfFuel;
    }
  }
}
