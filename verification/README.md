# A verified model of the Synacor Challenge virtual machine

This project models three pieces of a Synacor Challenge toolkit.

- **The virtual machine** (`vm.py`). It has 32768 words of unsigned 16-bit memory, eight registers and an unbounded stack. Each step decodes the instruction at `pc` and runs its handler.
  - Operands go through the `value()` rule: 0..32767 is a literal and 32768..32775 names a register.
  - Arithmetic keeps 15 bits.
  - Python's own exceptions drive control flow: `VmHalted` ends `execute`, and `IndexError` turns into the halt signal inside `read_mem`, `write_mem`, `pop` and `ret`.
- **The transactional memory** (`txmem.py`). Committed storage sits beside a journal of pending writes `(location, snapshot, new value)`.
  - A read sees the latest journal entry for its address, else committed storage.
  - `commit` checks every snapshot against storage before applying it.
  - `rollback` writes the snapshots back.
- **The memoised checksum** (`compute.c`). It is a two-argument recurrence modulo 32768, parameterised by the eighth register `r7`, with a 5 x 32768 cache. `main` searches for the `r7` for which `checksum(4, 1)` is 6.

Layout:

- Shared pieces:
  - `words.dfy`: word types and arithmetic definitions of `&`, `|` and `^`.
  - `pyseq.dfy`: Python's negative indexing and slice clamping.
  - `faults.dfy`: the exceptions.
  - `wrappers.dfy`: `Option`.
- The virtual machine:
  - `opcodes.dfy`: the opcode table.
  - `decode.dfy`: instruction decoding.
  - `semantics.dfy`: every handler as a function from machine state to machine state plus status.
  - `vm_properties.dfy`: the lemmas.
  - `vm.dfy`: the `VirtualMachine` class over arrays. Each of its methods is proved to follow the corresponding function in `semantics.dfy`.
- The transactional memory:
  - `journal.dfy`: what reads, commit and rollback mean on values, with the lemmas.
  - `txmem.dfy`: the `TransactionalMemory` class.
- The checksum:
  - `compute.dfy`: the recurrence, its closed forms, and the class with the cache, the reset loop and the search.

Points where the code's behaviour is easy to misread, as the model has it:

- **Halt leaves `pc` past the `halt`.** `fetch_instruction` (vm.py:83-86) moves `pc` before the handler runs. So `set r0 4; out r0; halt` stops with `pc` at 6, not at the `halt`'s address 5 (`VmProperties.SetOutHaltExample`).
- **Operands above 32775.** `value()` (vm.py:127-135) passes any operand above 32767 to `read_reg` (vm.py:100-104), which indexes the register array with `r - 32768` and checks no upper bound, so an operand above 32775 raises `IndexError` (`VmProperties.ValueRule`).
- **Write targets.** `write_reg` (vm.py:106-111) indexes the register array with `r - 32768` and checks no range. Targets 32760..32767 reach registers 0..7 through negative indexing (`VmProperties.WriteTargetIndexing`).
- **Commit conflict.** With the handlers working as their names intend (txmem.py:58-59), a conflict is re-raised without a rollback, so storage keeps the entries applied before it (`Journal.ConflictKeepsEarlierEntries`). As written, that handler names an undefined class, and the conflict surfaces as NameError instead; see Findings.

## Model

| member | source | states |
|---|---|---|
| Opcodes.TableIsBijective | vm.py:13-36 | Opcode numbers 0..21 are exactly the known ones, and number and opcode determine each other |
| Opcodes.MnemonicsDistinct | vm.py:13-36 | No two opcodes share a handler name, so dispatch by name is unambiguous |
| PySeq.PyIndex | vm.py:100-104 | Python indexing succeeds exactly for -n <= i < n and yields i or i + n, below n |
| PySeq.PySlice | vm.py:57-62 | A slice never exceeds its sequence, and for in-range bounds it is exactly s[lo..hi] |
| Words.AndLowMask | vm.py:185-193 | Masking with 2^k - 1 is reduction modulo 2^k, so `& 0x7FFF` keeps the value modulo 32768 |
| Words.XorTwice | vm.py:244-249 | Xor with a mask twice gives back the original value |
| Decoder.Decode | vm.py:64-81 | A decoded instruction has exactly its opcode's number of arguments and a next pc below 32768 |
| Decoder.FetchInstructionMem | vm.py:64-81 | The decoding loop over the array returns exactly what Decode gives, errors included |
| Decoder.DecodeKnown | vm.py:64-81 | For a known opcode, decoding yields the words at pc+1.. wrapped modulo 32768 and next pc (pc+1+nargs) mod 32768 |
| Decoder.DecodeFailsOnlyOnUnknownOpcode | vm.py:64-71 | In full memory, decoding fails exactly when the word at pc exceeds 21, and then with VmInvalidInstruction |
| Semantics.Boot | vm.py:41-46 | A fresh machine is valid: 32768 words holding the image from address 0 and zeros after it, eight zero registers, empty stack, pc 0, no output |
| Semantics.ReadReg | vm.py:100-104 | read_reg succeeds exactly for 32768-n..32767+n; 32768..32775 read register r-32768, and lower ones read from the end; everything else raises IndexError |
| Semantics.Value | vm.py:127-135 | value(v) is v on 0..32767, the register on 32768..32775, succeeds exactly on 0..32775, and fails only with IndexError |
| VmProperties.ValueRule | vm.py:127-135 | value(v) is v on 0..32767, register v-32768 on 32768..32775, and IndexError otherwise |
| VmProperties.ValueIsWord | vm.py:127-135 | In a valid machine, any operand that resolves is a word |
| VmProperties.WriteThenReadRegister | vm.py:100-111 | Writing a word to a register changes only that register, and reading it back gives the word |
| VmProperties.WriteTargetIndexing | vm.py:106-111 | Targets 32760..32767 write registers 0..7; any other target outside the register range raises IndexError with nothing changed |
| VmProperties.WriteRegPreservesValid | vm.py:106-111 | Register writes pass through value(), so registers stay words |
| VmProperties.ExecPreservesValid | vm.py:137-310 | Every handler keeps the machine valid, whatever it raises |
| VmProperties.StepPreservesValid | vm.py:88-91 | One step keeps registers, stack entries and pc words and sizes fixed |
| VmProperties.RunPreservesValid | vm.py:93-98 | The machine stays valid however many steps execute takes |
| VmProperties.FailedDecodeChangesNothing | vm.py:83-91 | An unknown opcode raises VmInvalidInstruction and leaves pc, registers, stack and memory as they were |
| VmProperties.AddStores | vm.py:185-193 | add stores (x+y) mod 32768 in the target register and changes nothing else |
| VmProperties.MultStores | vm.py:258-263 | mult stores (x*y) mod 32768 in the target register and changes nothing else |
| VmProperties.MaskIsModulo | vm.py:185-193 | `& 0x7FFF` is reduction modulo 32768 |
| VmProperties.ComparisonStores | vm.py:195-228 | eq and gt store exactly 1 when their comparison holds and 0 otherwise |
| VmProperties.BitwiseStores | vm.py:230-249 | and, or and not store words, and not applied twice restores the operand |
| VmProperties.NotTwice | vm.py:244-249 | `not r b` then `not r r` leaves value(b) in r |
| VmProperties.ModByZeroRaises | vm.py:265-270 | mod by zero raises ZeroDivisionError and changes nothing |
| VmProperties.ModStores | vm.py:265-270 | mod by a non-zero divisor stores value(b) % value(c), a word below the divisor, and changes nothing else |
| VmProperties.InStores | vm.py:297-310 | in consumes the first input code and stores it in register a; with no input left it raises EndOfInput and changes nothing |
| VmProperties.OutAppends | vm.py:149-154 | out appends value(a) to the output and changes nothing else |
| VmProperties.PushThenPop | vm.py:204-219 | push then pop stores value(a) in the register and restores the stack |
| VmProperties.EmptyStackHalts | vm.py:210-219 | pop and ret on an empty stack raise the halt signal and change nothing |
| VmProperties.PopToBadTargetStillPops | vm.py:210-219 | A pop whose target write fails still removes the top entry, then halts |
| VmProperties.CallThenRet | vm.py:251-256 | call pushes the address after itself and jumps to value(a); ret with that entry on top returns there and restores the stack |
| VmProperties.ConditionalJumps | vm.py:163-177 | jt and jf change only pc, and only when their condition holds, to value(b) |
| VmProperties.WmemThenRmem | vm.py:272-284 | wmem changes exactly one memory cell, and rmem at the same address then stores value(b) |
| VmProperties.RmemResolvesStoredWord | vm.py:272-277 | rmem passes the word read through value(): a register number copies that register, anything above 32775 raises IndexError |
| VmProperties.ExecProgress | vm.py:149-154 | Only `in` consumes input and only `out` writes output; every handler reads input from the front and appends output |
| VmProperties.StepProgress | vm.py:88-91 | A step consumes input only from the front and only appends output |
| VmProperties.RunProgress | vm.py:93-98 | A whole run of execute reads the terminal in order and writes it in order |
| VmProperties.ContinueProgress | vm.py:93-98 | The same after a step's outcome |
| VmProperties.RunIsStable | vm.py:93-98 | Once execute has stopped, a larger step budget gives the same result |
| VmProperties.ContinueIsStable | vm.py:93-98 | The same after a step's outcome: once stopped, more budget changes nothing |
| VmProperties.RunUnfolds | vm.py:93-98 | execute continues after a normal step and stops on the halt signal |
| VmProperties.ExampleSteps | vm.py:179-183 | The three steps of `set r0 4; out r0; halt`, each as a machine state |
| VmProperties.SetOutHaltExample | vm.py:143-154 | `set r0 4; out r0; halt` outputs code 4, halts with pc 6, and leaves 4 in r0 |
| Vm.VirtualMachine.constructor | vm.py:41-46 | The new machine's state is Semantics.Boot of the image |
| Vm.VirtualMachine.Regs | vm.py:54-55 | One pair per register, in register order: the i-th holds register i's value, and the names are "r0" to "r7" |
| Vm.VirtualMachine.Peek | vm.py:57-62 | Memory from address for length words; address defaults to 0 and length to the end of memory; never longer than memory |
| Vm.VirtualMachine.WriteReg | vm.py:106-111 | The array update follows Semantics.WriteReg and keeps the machine valid |
| Vm.VirtualMachine.ReadMem | vm.py:113-118 | Reads the resolved address, and any IndexError on the way becomes VmHalted |
| Vm.VirtualMachine.WriteMem | vm.py:120-125 | Stores value(v) at value(addr), and any IndexError becomes VmHalted |
| Vm.VirtualMachine.OpHalt | vm.py:143-147 | Raises the halt signal |
| Vm.VirtualMachine.OpNoop | vm.py:137-141 | Ends normally |
| Vm.VirtualMachine.OpOut | vm.py:149-154 | Appends value(a) to the output |
| Vm.VirtualMachine.OpJmp | vm.py:156-161 | Sets pc to value(a) |
| Vm.VirtualMachine.OpJt | vm.py:163-169 | Jumps to value(b) when value(a) is non-zero |
| Vm.VirtualMachine.OpJf | vm.py:171-177 | Jumps to value(b) when value(a) is zero |
| Vm.VirtualMachine.OpSet | vm.py:179-183 | Writes value(b) to register a |
| Vm.VirtualMachine.OpAdd | vm.py:185-193 | Writes (value(b) + value(c)) & 0x7FFF to register a |
| Vm.VirtualMachine.OpEq | vm.py:195-202 | Writes 1 or 0 by equality of the operands |
| Vm.VirtualMachine.OpPush | vm.py:204-208 | Appends value(a) to the stack |
| Vm.VirtualMachine.OpPop | vm.py:210-219 | Pops into register a; an empty stack or failed write halts |
| Vm.VirtualMachine.OpGt | vm.py:221-228 | Writes 1 or 0 by comparison of the operands |
| Vm.VirtualMachine.OpAnd | vm.py:230-235 | Writes the bitwise and of the operands |
| Vm.VirtualMachine.OpOr | vm.py:237-242 | Writes the bitwise or of the operands |
| Vm.VirtualMachine.OpNot | vm.py:244-249 | Writes value(b) ^ 0x7FFF |
| Vm.VirtualMachine.OpCall | vm.py:251-256 | Pushes pc, then jumps to value(a) |
| Vm.VirtualMachine.OpMult | vm.py:258-263 | Writes (value(b) * value(c)) & 0x7FFF |
| Vm.VirtualMachine.OpMod | vm.py:265-270 | Writes value(b) % value(c); a zero divisor raises ZeroDivisionError |
| Vm.VirtualMachine.OpRmem | vm.py:272-277 | Reads memory at value(b) and writes it to register a through value() |
| Vm.VirtualMachine.OpWmem | vm.py:279-284 | Stores value(b) at value(a) |
| Vm.VirtualMachine.OpRet | vm.py:286-295 | Pops the stack and jumps there; an empty stack halts |
| Vm.VirtualMachine.OpIn | vm.py:297-310 | Consumes one input character and writes its code to register a |
| Vm.VirtualMachine.Dispatch | vm.py:88-91 | Runs the handler the opcode names, on the raw arguments |
| Vm.VirtualMachine.FetchInstruction | vm.py:83-86 | Returns Decode at pc, and moves pc to the next instruction only when decoding succeeded |
| Vm.VirtualMachine.Step | vm.py:88-91 | One step of the array machine is Semantics.Step of its state |
| Vm.VirtualMachine.Execute | vm.py:93-98 | The loop reaches the state and stop reason of Semantics.Run |
| Journal.View | txmem.py:24-33 | A read of a journaled address gives the value of the last entry for it; any other read is the committed read |
| Journal.Restore | txmem.py:44-46 | Rollback's loop keeps the storage size and changes no address outside the journal |
| Journal.Apply | txmem.py:53-56 | The commit loop stops only at a conflicting snapshot or a value outside 16 bits; success means every value fits |
| Journal.LastWrite | txmem.py:24-31 | A journal value exists for an address exactly when some entry names it, and it is the value of the last such entry |
| Journal.CommittedAt | txmem.py:35-36 | Locations 0..n-1 read storage directly, -n..-1 read from the end, and locations outside -n..n-1 raise IndexError |
| Journal.Commit | txmem.py:51-62 | Commit as intended ends in success, a conflict or an overflow; only a conflict keeps the journal |
| Journal.CommitAsWritten | txmem.py:51-62 | Commit as written ends in success or NameError, and NameError keeps the whole journal |
| Journal.ViewAfterWrite | txmem.py:15-33 | After a journaled write, reads of that address see the new value and other reads are unchanged |
| Journal.LastWriteWins | txmem.py:24-33 | Of two writes to one address, a read sees the second |
| Journal.RestoreRecovers | txmem.py:41-47 | Rollback gives back the storage the writes saw, whatever the journaled addresses hold now |
| Journal.RollbackKeepsStorage | txmem.py:41-47 | With no outside change since the writes, rollback leaves storage as it was |
| Journal.ApplyFrame | txmem.py:51-57 | Commit changes only journaled addresses |
| Journal.CommitPublishesView | txmem.py:51-57 | With distinct addresses, fitting values and unchanged storage, commit succeeds, empties the journal, and storage equals the pre-commit view everywhere |
| Journal.ApplySplit | txmem.py:53-56 | The commit loop continues from the state its first i entries leave |
| Journal.ConflictKeepsEarlierEntries | txmem.py:53-59 | A snapshot mismatch raises the conflict error, keeps earlier entries applied, and keeps the journal |
| Journal.SecondWriteConflicts | txmem.py:22 | Two writes to one address whose first value differs from storage make commit conflict on the second |
| Journal.OverflowRollsBack | txmem.py:60-62 | A value outside 16 bits restores the original storage, empties the journal and raises OverflowError |
| Journal.CommitAsWrittenSkipsRollback | txmem.py:58 | As written, an overflowing second entry leaves the first applied and the journal full, raising NameError |
| TxMem.TransactionalMemory.constructor | txmem.py:9-13 | size zero words and an empty journal |
| TxMem.TransactionalMemory.Write | txmem.py:15-22 | Rejects a location outside storage or a missing value with ValueError; otherwise appends exactly (location, storage at location, value), storage untouched |
| TxMem.TransactionalMemory.Read | txmem.py:24-33 | The scan returns the latest journal value for the location, else committed storage |
| TxMem.TransactionalMemory.HasUpdates | txmem.py:38-39 | True exactly when the journal is non-empty; when false, every read is a committed read |
| TxMem.TransactionalMemory.Rollback | txmem.py:41-47 | Writes every snapshot back in journal order and empties the journal |
| TxMem.TransactionalMemory.Commit | txmem.py:51-62 | Storage, journal and error after the loop are those of Journal.Commit |
| Compute.ChecksumOf | compute.c:8-33 | Every checksum value is below 32768, by induction over (r0, r1) lexicographically |
| Compute.LevelOne | compute.c:11-21 | checksum(1, n) is (r7 + 1 + n) mod 32768 |
| Compute.LevelTwo | compute.c:11-32 | checksum(2, n) is (2*r7 + 1 + n*(r7 + 1)) mod 32768 |
| Compute.Memo.Checksum | compute.c:8-33 | The memoised recursion returns the recurrence's value and keeps every filled cache slot equal to it, with all indices in the table |
| Compute.Memo.ResetCache | compute.c:41-47 | Every one of the 5 x 32768 slots holds the empty marker |
| Compute.Memo.Search | compute.c:39-63 | Returns the first r7 in 1..32767 giving checksum(4, 1) = 6, or none, all smaller r7 failing |

## Left out

- `load_image` (vm.py:48-52) reads a file. The constructor takes the image words directly and places them at address 0. It requires the image to fit in memory, because a longer slice assignment would grow the Python array.
- Terminal I/O in `op_out` and `op_in`: output is a sequence of character codes and input a sequence of bytes.
  - Vm.VirtualMachine.OpOut: does not model `chr()` rejecting codes above 255, because characters are kept as codes.
  - Vm.VirtualMachine.OpIn: does not model the `IOError` retry loop. End of input is the `EndOfInput` exception, standing for `ord('')` failing on an empty read.
- Vm.VirtualMachine.Execute: bounded by a step budget (`fuel`). The unbounded `while True` loop, the `KeyboardInterrupt` handler and the final `print` are left out.
- The `print` calls in `read_mem` and `write_mem` are output only.
- The stack and the journal are Python lists, which hold any object; the model holds integers in them. Memory, registers and committed storage are `array('H')`, which accepts exactly the integers 0..65535, as the word type does. Storing any other integer raises OverflowError, which is the failure `Journal.Apply` models.
- TxMem.TransactionalMemory.Rollback: does not model the retry-forever bare `except` (txmem.py:42-49). Every journaled location was checked at write time, and every snapshot is a 16-bit word, so the single pass cannot fail.
- The virtual machine and the transactional memory are separate here, as in the code, which never connects them.
- Compute.Memo.Search: does not model `printf`, `exit` or the runtime self-check that `r7 = 1` gives 32765 (compute.c:53-57). That self-check is a computation over the whole table, not a property of the recurrence.
- debugger.py is not part of this model: it is the interactive shell and formatting around the machine.

## Findings

| source | as written | input that shows it | evidently intended | confidence | as-written member | corrected member |
|---|---|---|---|---|---|---|
| txmem.py:58 | The handler names `FatalTransactionError`, but the class is declared `FataTransactionError` (line 4), and line 55 raises the same undefined name. Any exception in the commit loop therefore becomes NameError, and the rollback handler at lines 60-62 is never reached | Storage of two words and journal [(0, mem[0], v), (1, mem[1], 65536)] with v a word different from mem[0]: word 0 stays v, the journal keeps both entries, NameError is raised | A conflict raises the conflict error. Any other failure rolls back (storage as before, journal empty) and re-raises, here OverflowError | high, not executed | Journal.CommitAsWritten, Journal.CommitAsWrittenSkipsRollback | Journal.Commit, Journal.OverflowRollsBack, TxMem.TransactionalMemory.Commit |
