# enaa: a verified model of the bytecode VM and its assembler

enaa is a small Rust toy. It has a stack-machine interpreter for a
fifteen-opcode bytecode (`src/vm.rs`) and a two-pass pseudo-assembler and
pretty-printer for symbolic programs (`src/asm.rs`). This project models
both in Dafny and proves what they do.

- `results.dfy` (`Results`): a `Result` type that works with `:-`, and `Option`.
- `bytecode.dfy` (`Bytecode`):
  - the `Opcode` enum with its discriminants (`Code`);
  - the checked decoder `TryFrom<u8>` (`Decode`);
  - the names `#[derive(Debug)]` prints (`Name`);
  - the interpreter's fatal errors (`VmError`);
  - `Byte` (`u8`) and `Word` (`u32`).
- `semantics.dfy` (`Semantics`): one fetch-decode-execute cycle of `Vm::run`
  as a pure function `Step`. It works on an explicit machine state: pc, data
  stack, auxiliary register, the input not yet read, and the output. `Exec`
  is a run of at most `fuel` cycles. Every opcode is covered by a step
  lemma (some lemmas cover several opcodes, and Exit is covered with the
  fetch), and further lemmas are about whole runs.
- `interpreter.dfy` (`Interpreter`): the `Vm` struct as a class whose fields
  the methods update in place: `new`, `push`, `pop`, `branch_if`, the
  dispatch of `run`, and `run` itself. Each method is proved against
  `Semantics`. The source's single `match` in `Vm::run` is `Dispatch`,
  which hands each opcode to one of four methods grouped by what the arms
  touch: `Exchange` (In, Out), `Shuffle` (Dup, Pusha, Popa, Push),
  `Arithmetic` (Add, Sub) and `Transfer` (Jmp, the branches, Beq). The
  grouping is the model's, not the source's; it keeps each proof small.
  The loop of `run` keeps the invariant that running the current state for
  the remaining fuel gives the same outcome as running the initial state
  for all of it.
- `assembler.dfy` (`Assembler`):
  - `Insn`, `Operand` and the builders.
  - `assemble`, as the imperative two-loop method `Assemble`. It is proved
    equal to `Assembled`, a definition over growing prefixes of the source
    (`Emit`, `Labels`, `Relocations`, `Patch`).
  - The lemmas about lengths, offsets, labels and patching.
- `listing.dfy` (`Listing`): `pretty_print` as the imperative method
  `PrettyPrint`, proved equal to `Render`, the concatenation of each
  instruction's `Line`. The lemmas cover order, decimal round-trips and
  the line count.
- `scenarios.dfy` (`Scenarios`): small concrete programs assembled to known
  bytes or run to a known outcome.

Modelling choices, all taken from the code:

- `Add` and `Sub` wrap modulo 2^32, as a release build does (`Wrap`).
- Every indexing of the program past its end becomes the error
  `PcOutOfRange(index)`. This covers `program[pc]` and `program[pc + 1]` in
  `Jmp`, `Bne`, `Push` and `branch_if`. In the source it is a panic.
- `Beq` decodes (src/vm.rs:111), but `run` has no arm for it and reaches
  `todo!()` (src/vm.rs:218). The model stops with `Unimplemented(Beq)`. It
  does not jump, although the doc comment at src/vm.rs:66-70 describes a
  jump.
- `Bne` pops one word (src/vm.rs:178). `Bgt`, `Blt` and `Ble` pop two. Any
  general statement that every branch consumes two words does not hold
  for `Bne`.
- `Out` pops first and converts afterwards. An empty stack is
  `StackUnderflow`; a popped word that is not a Unicode scalar value is
  `InvalidCodePoint(word)` (src/vm.rs:166). `In` pushes the next
  character's code point, or 0 once the input is exhausted.
- The assembler truncates label offsets and immediates to a byte (`% 0x100`).
  Duplicate labels are last-wins (`HashMap::insert`). An operand byte is
  emitted whenever the instruction has an operand, whatever the opcode.

## Model

| member | source | states |
|---|---|---|
| Bytecode.Code | src/vm.rs:10-94 | every opcode's discriminant is below 15 |
| Bytecode.Decode | src/vm.rs:99-118 | decoding succeeds iff the byte is below 15; a decoded opcode's discriminant is the byte; any other byte fails with `InvalidOpcode(byte)` |
| Bytecode.DecodeCode | src/vm.rs:12-117 | decoding the discriminant of any opcode gives that opcode back |
| Bytecode.CodeInjective | src/vm.rs:12-94 | distinct opcodes have distinct discriminants |
| Bytecode.Name | src/vm.rs:11 | the `Debug` name of an opcode is 2 to 5 ASCII letters |
| Bytecode.NameInjective | src/vm.rs:11 | distinct opcodes print under distinct names |
| Semantics.Initial | src/vm.rs:143-152 | the state `Vm::new` starts from: pc 0, empty stack, aux 0, the whole input, no output |
| Semantics.JumpTo | src/vm.rs:171 | pc becomes the operand byte `program[pc + 1]`; an operand past the end is `PcOutOfRange(pc + 1)` (also src/vm.rs:180, 236) |
| Semantics.Branch | src/vm.rs:232-241 | `branch_if`: underflow with fewer than two words; else pop rhs then lhs and jump if `cmp(lhs, rhs)`, otherwise pc advances by 2; properties in StepCompare |
| Semantics.Effect | src/vm.rs:158-219 | one arm per opcode as `run`'s `match` executes it, Beq reaching `todo!()`; properties in StepIn through StepBeq and StepFrame |
| Semantics.Step | src/vm.rs:156-158 | one cycle: fetch at pc (past the end faults), decode (an invalid byte faults), then `Effect`; properties in FetchDecodes and StepFetch |
| Semantics.Exec | src/vm.rs:155-222 | at most `fuel` cycles: Exit gives the final state, an error ends the run, otherwise continue; properties in ExecMonotone, ExecExitsOnExit and ExecFuelMonotone |
| Semantics.FetchDecodes | src/vm.rs:157-158 | when the byte at pc encodes `op`, the cycle performs `op`'s effect |
| Semantics.StepFetch | src/vm.rs:156-159 | a pc past the end faults with `PcOutOfRange(pc)`; a byte of 15 or more faults with `InvalidOpcode`; a fetched Exit stops the run |
| Semantics.StepIn | src/vm.rs:160-164 | In pushes the next character's code point, or 0 at end of input; it consumes at most that one character; pc advances by 1; aux and output stay |
| Semantics.StepOut | src/vm.rs:165-169 | Out faults on an empty stack, or on a popped word that is not a scalar value; otherwise the output grows by exactly that character and pc advances by 1 |
| Semantics.StepDup | src/vm.rs:173-176 | Dup faults iff the stack is empty; otherwise it pushes a copy of the top and leaves the rest |
| Semantics.StepArith | src/vm.rs:206-217 | Add and Sub fault iff fewer than two words are present; otherwise lhs+rhs or lhs-rhs modulo 2^32 replaces the two operands; the height drops by one; deeper entries stay |
| Semantics.StepBne | src/vm.rs:177-184 | Bne pops one word; it jumps to the operand iff the word is non-zero, else pc advances by 2; an empty stack faults |
| Semantics.StepCompare | src/vm.rs:185-193 | Bgt, Blt and Ble fault iff fewer than two words are present; they pop exactly two and jump iff lhs >, < or <= rhs; otherwise pc advances by 2 |
| Semantics.StepPush | src/vm.rs:198-201 | Push pushes the operand byte zero-extended and advances pc by 2; an operand past the end faults |
| Semantics.StepJmp | src/vm.rs:170-172 | Jmp sets pc to the operand byte and leaves the stack alone |
| Semantics.StepAux | src/vm.rs:194-205 | Pusha pushes aux; Popa pops into aux, and faults on an empty stack |
| Semantics.StepBeq | src/vm.rs:218 | fetching Beq ends the run with `Unimplemented(Beq)`, never a jump |
| Semantics.StepFrame | src/vm.rs:158-219 | in any cycle: aux changes only on Popa; the output changes only on Out, by one appended character; the input loses only its first character, only on In |
| Semantics.StepMonotone | src/vm.rs:158-219 | one cycle extends the output and consumes the input from the front |
| Semantics.ExecMonotone | src/vm.rs:155-222 | over a whole run, the output is only extended and the input only consumed from the front |
| Semantics.ExecExitsOnExit | src/vm.rs:156-159 | a run that finishes normally stopped on a fetched Exit |
| Semantics.ExecFuelMonotone | src/vm.rs:156-221 | a run that ended, normally or with an error, ends the same way given more fuel |
| Interpreter.Report | src/vm.rs:221 | the result is the output exactly when the run reached Exit; an error is reported as itself |
| Interpreter.Vm.constructor | src/vm.rs:143-152 | the new VM holds the program, with pc 0, an empty stack, aux 0, the whole input and no output |
| Interpreter.Vm.Push | src/vm.rs:224-226 | the word is appended on top of the stack |
| Interpreter.Vm.Pop | src/vm.rs:228-230 | popping an empty stack is `StackUnderflow` and changes nothing; otherwise it returns the top and removes it |
| Interpreter.Vm.BranchIf | src/vm.rs:232-241 | the new state is `Branch`: pop rhs, pop lhs, then jump if `cmp(lhs, rhs)` or skip the operand byte |
| Interpreter.Vm.Dispatch | src/vm.rs:158-219 | executing any decoded opcode other than Exit leaves the state `Effect` gives, or fails with its error |
| Interpreter.Vm.Exchange | src/vm.rs:160-169 | In and Out update the state as `Effect` says |
| Interpreter.Vm.Shuffle | src/vm.rs:173-205 | Dup, Pusha, Popa and Push update the state as `Effect` says |
| Interpreter.Vm.Arithmetic | src/vm.rs:206-217 | Add and Sub update the state as `Effect` says |
| Interpreter.Vm.Transfer | src/vm.rs:170-193 | Jmp, Bne, Bgt, Blt and Ble update the state as `Effect` says, and Beq fails |
| Interpreter.Vm.Run | src/vm.rs:155-222 | the loop returns what `Exec` reports for the starting state |
| Interpreter.Run | src/vm.rs:245-249 | the public `run` reports `Exec` from the initial state on a non-empty program |
| Assembler.New | src/asm.rs:24-30 | a new instruction has the opcode, no label and no operand |
| Assembler.SetLabel | src/asm.rs:32-38 | only the label is replaced |
| Assembler.SetValue | src/asm.rs:40-46 | only the operand is replaced, by the immediate |
| Assembler.SetTarget | src/asm.rs:48-54 | only the operand is replaced, by the target |
| Assembler.Size | src/asm.rs:66-74 | an instruction takes one or two bytes, two exactly when it has an operand, whatever its opcode |
| Assembler.OperandCount | src/asm.rs:67-74 | the number of instructions with an operand, at most the number of instructions |
| Assembler.EncodedLength | src/asm.rs:62-75 | the output of n instructions has between n and 2n bytes; EncodedLengthCount gives it exactly as n plus the operand count |
| Assembler.Encode | src/asm.rs:66-74 | an instruction takes one byte, plus one if it has an operand |
| Assembler.Emit | src/asm.rs:62-75 | the bytes of the emission loop: the encodings one after another; properties in EmitLength, EmitAt and EmitLayout |
| Assembler.Labels | src/asm.rs:63-65 | the label table of the emission loop, each definition overwriting the last; properties in LabelsDomain and LabelsLastWins |
| Assembler.Relocations | src/asm.rs:67-72 | every pending relocation points at a reserved 0 byte inside the output; offsets strictly increase |
| Assembler.Patch | src/asm.rs:77-79 | the relocation loop: write each label's offset mod 256 in order, failing at the first unknown label; properties in PatchSpec |
| Assembler.Assembled | src/asm.rs:58-82 | `assemble` as a definition: patch the emitted bytes with the relocations and the label table; properties in AssembleSucceeds, AssembleLayout, AssembleTarget and AssembleOnlyPatchesTargets |
| Assembler.PrefixStep | src/asm.rs:62-75 | one iteration of the emission loop appends the encoding, records the label at the current length, and queues a relocation for a target |
| Assembler.EmissionPass | src/asm.rs:59-75 | the emission loop yields the bytes, label table and relocations of the whole source |
| Assembler.Assemble | src/asm.rs:58-82 | both loops together compute `Assembled` |
| Assembler.EncodedLengthCount | src/asm.rs:62-75 | the encoded length is the number of instructions plus the number with an operand |
| Assembler.OffsetNext | src/asm.rs:62-75 | each instruction starts right after the previous one |
| Assembler.OffsetsIncrease | src/asm.rs:62-75 | start offsets never decrease along the source |
| Assembler.OffsetsApart | src/asm.rs:62-75 | distinct instructions occupy disjoint byte ranges |
| Assembler.EmitLength | src/asm.rs:62-75 | the first pass emits exactly the encoded length |
| Assembler.EmitAt | src/asm.rs:66-74 | each instruction's opcode sits at its offset, followed by the truncated immediate or a reserved 0 |
| Assembler.EmitLayout | src/asm.rs:62-75 | the same for all instructions at once |
| Assembler.LabelsDomain | src/asm.rs:63-65 | a label is in the table iff some instruction defines it |
| Assembler.LabelsLastWins | src/asm.rs:63-65 | a label maps to the offset of its last definition |
| Assembler.RelocationFromTarget | src/asm.rs:69-72 | each relocation comes from a target operand and sits one byte after that instruction's start |
| Assembler.TargetHasRelocation | src/asm.rs:69-72 | every target operand has its relocation |
| Assembler.RelocationsMissUntargeted | src/asm.rs:66-74 | no relocation hits an opcode byte or an immediate |
| Assembler.PatchSpec | src/asm.rs:77-79 | patching succeeds iff every relocation's label is known. Then each reserved byte gets its label's offset mod 256, every other byte and the length stay, and on failure a missing label that some relocation names is reported |
| Assembler.AssembleSucceeds | src/asm.rs:77-81 | `assemble` succeeds iff every target names a label defined anywhere in the source; on failure it reports a target label that no instruction defines |
| Assembler.AssembleLayout | src/asm.rs:62-81 | the output has one byte per instruction plus one per operand; each instruction's discriminant sits at its offset; an immediate is emitted as `v mod 256` |
| Assembler.AssembleTarget | src/asm.rs:63-79 | a target's byte is the offset, mod 256, of the last instruction carrying its label, forward references included |
| Assembler.AssembleOnlyPatchesTargets | src/asm.rs:70-79 | the relocation pass keeps the length and changes only bytes one past a target instruction's start |
| Listing.Decimal | src/asm.rs:96 | `{}` of a number is nonempty, all digits, with no leading zero |
| Listing.DecimalRoundTrip | src/asm.rs:96 | reading the decimal text back gives the number |
| Listing.Line | src/asm.rs:87-98 | one instruction's line: `label:` and a tab or a tab, the `Debug` name, a blank and the target or the decimal immediate, a newline; properties in LineNewlines |
| Listing.Render | src/asm.rs:84-101 | the lines of the instructions in order; properties in RenderAppend, RenderAt and RenderLineCount |
| Listing.PrettyPrint | src/asm.rs:84-101 | the loop's text is `Render` of the source, and it always succeeds |
| Listing.JoinedAppend | src/asm.rs:86-99 | concatenating per-instruction texts distributes over concatenating sources |
| Listing.RenderAppend | src/asm.rs:86-99 | the listing of two sources one after the other is their listings one after the other |
| Listing.RenderSnoc | src/asm.rs:86-99 | adding an instruction adds its line at the end |
| Listing.RenderPrefix | src/asm.rs:86-99 | the listing of the first i+1 instructions adds instruction i's line |
| Listing.RenderAt | src/asm.rs:86-99 | instruction i's line sits between the lines of the instructions before it and those after it |
| Listing.LineNewlines | src/asm.rs:87-98 | a line whose names hold no newline ends in its only newline |
| Listing.RenderLineCount | src/asm.rs:86-99 | such a listing has exactly one newline per instruction |
| Scenarios.SkipEmits | src/asm.rs:62-75 | a jump over one instruction to a labelled Exit emits `9 0 8 1 7`, with the label at 4 and one relocation at 1 |
| Scenarios.SkipAssembles | src/asm.rs:58-82 | that forward reference assembles to `9 4 8 1 7` |
| Scenarios.SkipRuns | src/vm.rs:155-222 | those bytes take the jump and exit with an empty stack |
| Scenarios.DanglingTarget | src/asm.rs:77-78 | a target that nothing defines fails with that label |
| Scenarios.PushOutExit | src/vm.rs:165-169 | `Push 97; Out; Exit` outputs "a" on any input |
| Scenarios.EchoFirst | src/vm.rs:160-169 | `In; Out; Exit` copies the first input character |
| Scenarios.EchoEmpty | src/vm.rs:161 | on empty input, `In` pushes 0 and `Out` writes NUL |
| Scenarios.DupUnderflow | src/vm.rs:174 | `Dup` on an empty stack fails with `StackUnderflow` |
| Scenarios.BadOpcode | src/vm.rs:116 | byte 15 fails with `InvalidOpcode(15)` |
| Scenarios.FallOffEnd | src/vm.rs:157 | running past the last byte fails with `PcOutOfRange` |
| Scenarios.BranchTaken | src/vm.rs:188-190 | `Blt` with 3 below 5 jumps |
| Scenarios.SubWraps | src/vm.rs:212-216 | `Push 0; Push 1; Sub; Exit` exits with 2^32 - 1 on the stack |

## Left out

- src/main.rs: command-line parsing, file reading, printing and the
  process exit code are I/O glue. src/main.rs is not part of this model. Its
  `DECRYPTER` table is not transcribed: a concrete assembly and run of its
  25 instructions is too costly to prove, so the scenarios use small programs.
  That sample does not undo a constant shift: its shift starts at 4 and grows
  by one, modulo 26, after every character.
- Interpreter.Vm.Run, Interpreter.Run: bounded by a `fuel` parameter. `run`
  in the source loops until Exit or an error and may never terminate. The
  model reports `FuelExhausted` when the fuel runs out. `ExecFuelMonotone`
  shows that more fuel never changes a run that already ended.
- Debug-build overflow panics of `Add` and `Sub`: the model wraps modulo
  2^32, as a release build does.
- Panics on out-of-range program indexing: these are the error value
  `PcOutOfRange`, not a process abort. Overflow of the `usize` pc is not
  modelled; pc is unbounded.
- The VM's state after an error: `run` discards it, and so does the model.
- `anyhow` messages and context strings: errors are the datatypes `VmError`
  and `AsmError`.
- UTF-8 decoding by `str::chars`: the input is a sequence of characters.
- `Vec::with_capacity(16)` and `HashMap` internals: sequences and a Dafny
  `map` stand in for them.
- Listing.PrettyPrint: returns the text rather than `anyhow::Result<String>`,
  because the source never returns an error from it.
- The `debug_assert!` on a non-empty program in the public `run` is the
  precondition of Interpreter.Run.
