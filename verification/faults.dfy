/** What a step of the virtual machine can raise, and results that may carry it. */
module Faults {

  /** The exceptions that leave a handler of the machine (vm.py:7-11 and Python's built-in ones). */
  datatype Exc =
    | VmHalted              // the terminal signal; `execute` stops on it
    | VmInvalidInstruction  // an unknown opcode, or an instruction running off the memory block
    | IndexError            // an operand above 32775, or a register or memory index out of range
    | ZeroDivisionError     // `mod` by zero
    | EndOfInput            // `in` when no character is left (Python's `ord('')` fails)

  datatype Res<T> = Ok(value: T) | Raise(exc: Exc)
}
