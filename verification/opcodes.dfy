/** The static opcode table of the virtual machine (vm.py:13-36). */
module Opcodes {
  import opened Wrappers

  datatype Opcode =
    | Halt | Set | Push | Pop | Eq | Gt | Jmp | Jt | Jf | Add | Mult
    | Mod | And | Or | Not | Rmem | Wmem | Call | Ret | Out | In | Noop

  /** The table lookup `opcodes[op]`: None where Python raises KeyError. */
  function OpcodeOf(w: int): Option<Opcode>
  {
    match w
    case 0 => Some(Halt)
    case 1 => Some(Set)
    case 2 => Some(Push)
    case 3 => Some(Pop)
    case 4 => Some(Eq)
    case 5 => Some(Gt)
    case 6 => Some(Jmp)
    case 7 => Some(Jt)
    case 8 => Some(Jf)
    case 9 => Some(Add)
    case 10 => Some(Mult)
    case 11 => Some(Mod)
    case 12 => Some(And)
    case 13 => Some(Or)
    case 14 => Some(Not)
    case 15 => Some(Rmem)
    case 16 => Some(Wmem)
    case 17 => Some(Call)
    case 18 => Some(Ret)
    case 19 => Some(Out)
    case 20 => Some(In)
    case 21 => Some(Noop)
    case _ => None
  }

  /** The number an opcode has in the table. */
  function Code(op: Opcode): (c: nat)
    ensures c <= 21
  {
    match op
    case Halt => 0
    case Set => 1
    case Push => 2
    case Pop => 3
    case Eq => 4
    case Gt => 5
    case Jmp => 6
    case Jt => 7
    case Jf => 8
    case Add => 9
    case Mult => 10
    case Mod => 11
    case And => 12
    case Or => 13
    case Not => 14
    case Rmem => 15
    case Wmem => 16
    case Call => 17
    case Ret => 18
    case Out => 19
    case In => 20
    case Noop => 21
  }

  /** The argument count of the table, `opcodes[op][1]`. */
  function Arity(op: Opcode): (n: nat)
    ensures n <= 3
  {
    match op
    case Halt | Ret | Noop => 0
    case Push | Pop | Jmp | Call | Out | In => 1
    case Set | Jt | Jf | Not | Rmem | Wmem => 2
    case Eq | Gt | Add | Mult | Mod | And | Or => 3
  }

  /** The mnemonic of the table, `opcodes[op][0]`; the handler is named `op_` followed by it. */
  function Mnemonic(op: Opcode): string
  {
    match op
    case Halt => "halt"
    case Set => "set"
    case Push => "push"
    case Pop => "pop"
    case Eq => "eq"
    case Gt => "gt"
    case Jmp => "jmp"
    case Jt => "jt"
    case Jf => "jf"
    case Add => "add"
    case Mult => "mult"
    case Mod => "mod"
    case And => "and"
    case Or => "or"
    case Not => "not"
    case Rmem => "rmem"
    case Wmem => "wmem"
    case Call => "call"
    case Ret => "ret"
    case Out => "out"
    case In => "in"
    case Noop => "noop"
  }

  /** The table holds exactly the numbers 0 to 21, and lookup and numbering are inverse. */
  lemma TableIsBijective(w: int, op: Opcode)
    ensures OpcodeOf(Code(op)) == Some(op)
    ensures OpcodeOf(w).Some? <==> 0 <= w <= 21
    ensures OpcodeOf(w) == Some(op) ==> Code(op) == w
  {
  }

  /** Distinct opcodes have distinct mnemonics, so dispatch by name reaches one handler. */
  lemma MnemonicsDistinct(p: Opcode, q: Opcode)
    ensures Mnemonic(p) == Mnemonic(q) ==> p == q
  {
  }
}
