/** Instruction fetch and decode (vm.py:64-81). */
module Decoder {
  import opened Words
  import opened Faults
  import opened Opcodes
  import opened Wrappers

  /** A decoded instruction: opcode, raw (unresolved) arguments and the pc after it. */
  datatype Instr = Instr(op: Opcode, args: seq<U16>, next: nat)

  /** The address of argument i of the instruction at pc; each read advances modulo 32768. */
  function ArgAddress(pc: nat, i: nat): nat
  {
    (pc + 1 + i) % WordCount
  }

  /**
   * `fetch_instruction_mem(mem, pc)`: reading the opcode word outside `mem`
   * raises IndexError, a word missing from the table raises
   * VmInvalidInstruction, and so does an argument address outside `mem`
   * (only possible when `mem` is shorter than the address space).
   */
  function Decode(mem: seq<U16>, pc: nat): (r: Res<Instr>)
    ensures r.Ok? ==> |r.value.args| == Arity(r.value.op) && r.value.next < WordCount
  {
    if pc >= |mem| then Raise(IndexError)
    else match OpcodeOf(mem[pc])
      case None => Raise(VmInvalidInstruction)
      case Some(op) =>
        var n := Arity(op);
        if forall i :: 0 <= i < n ==> ArgAddress(pc, i) < |mem| then
          Ok(Instr(op, seq(n, i requires 0 <= i < n => mem[ArgAddress(pc, i)]), (pc + 1 + n) % WordCount))
        else Raise(VmInvalidInstruction)
  }

  /** The loop of `fetch_instruction_mem`, over the memory array itself. */
  method FetchInstructionMem(mem: array<U16>, pc: nat) returns (r: Res<Instr>)
    ensures r == Decode(mem[..], pc)
  {
    ghost var s := mem[..];
    if pc >= mem.Length {
      return Raise(IndexError);
    }
    var op := OpcodeOf(mem[pc]);
    var at := (pc + 1) % WordCount;
    if op.None? {
      return Raise(VmInvalidInstruction);
    }
    var nargs := Arity(op.value);
    var args: seq<U16> := [];
    var i := 0;
    while i < nargs
      invariant 0 <= i <= nargs
      invariant at == ArgAddress(pc, i)
      invariant forall k :: 0 <= k < i ==> ArgAddress(pc, k) < mem.Length
      invariant |args| == i
      invariant forall k :: 0 <= k < i ==> args[k] == s[ArgAddress(pc, k)]
    {
      if at >= mem.Length {
        return Raise(VmInvalidInstruction);
      }
      args := args + [mem[at]];
      at := (at + 1) % WordCount;
      i := i + 1;
    }
    assert args == seq(nargs, k requires 0 <= k < nargs => s[ArgAddress(pc, k)]);
    r := Ok(Instr(op.value, args, at));
  }

  /**
   * Decoding a known opcode in the full address space yields exactly its
   * argument count of words, read from consecutive addresses with
   * wrap-around, and the pc of the following instruction.
   */
  lemma DecodeKnown(mem: seq<U16>, pc: nat, op: Opcode)
    requires |mem| == WordCount && pc < WordCount
    requires OpcodeOf(mem[pc]) == Some(op)
    ensures Decode(mem, pc).Ok?
    ensures Decode(mem, pc).value.op == op
    ensures |Decode(mem, pc).value.args| == Arity(op)
    ensures forall i :: 0 <= i < Arity(op) ==> Decode(mem, pc).value.args[i] == mem[(pc + 1 + i) % WordCount]
    ensures Decode(mem, pc).value.next == (pc + 1 + Arity(op)) % WordCount
  {
  }

  /** In the full address space decoding fails exactly on a word outside the opcode table. */
  lemma DecodeFailsOnlyOnUnknownOpcode(mem: seq<U16>, pc: nat)
    requires |mem| == WordCount && pc < WordCount
    ensures Decode(mem, pc).Raise? <==> mem[pc] > 21
    ensures Decode(mem, pc).Raise? ==> Decode(mem, pc).exc == VmInvalidInstruction
  {
    TableIsBijective(mem[pc], Halt);
  }
}
