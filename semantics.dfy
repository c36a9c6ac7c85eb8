/** The meaning of one fetch-decode-execute cycle of the interpreter in
    src/vm.rs, as pure functions over an explicit machine state, and the
    fuel-bounded meaning of a whole run. The class in interpreter.dfy is
    proved against these functions. */
module Semantics {
  import opened Results
  import opened Bytecode

  /** Everything a run of the VM updates: the program counter, the data
      stack (top at the end), the auxiliary register, the not yet consumed
      input characters and the output written so far. The program itself is
      immutable and passed alongside. */
  datatype Machine = Machine(pc: nat, stack: seq<Word>, aux: Word, input: seq<char>, output: string)

  /** The state `Vm::new` starts from. */
  function Initial(input: string): Machine {
    Machine(0, [], 0, input, "")
  }

  /** The result of one cycle: a successor state, a clean stop on Exit, or a
      fatal error. */
  datatype Transition = Next(m: Machine) | Halt | Fault(err: VmError)

  /** The result of a bounded run. */
  datatype Outcome = Exited(final: Machine) | Failed(err: VmError) | OutOfFuel(last: Machine)

  function Top(s: seq<Word>): Word
    requires s != []
  {
    s[|s| - 1]
  }

  function Popped(s: seq<Word>): seq<Word>
    requires s != []
  {
    s[..|s| - 1]
  }

  /** `char::from_u32` succeeds exactly on Unicode scalar values. */
  predicate IsScalarValue(w: int) {
    0 <= w < 0xD800 || 0xE000 <= w < 0x11_0000
  }

  /** `u32` addition and subtraction as a release build performs them:
      modulo 2^32. */
  function Wrap(x: int): Word {
    x % WordModulus
  }

  /** The three comparisons `branch_if` is called with: lhs is the second
      word from the top, rhs the top. */
  function Greater(lhs: Word, rhs: Word): bool { lhs > rhs }
  function Less(lhs: Word, rhs: Word): bool { lhs < rhs }
  function AtMost(lhs: Word, rhs: Word): bool { lhs <= rhs }

  /** The opcode byte at the program counter decodes to `op`. */
  predicate Fetches(program: seq<Byte>, m: Machine, op: Opcode) {
    m.pc < |program| && program[m.pc] == Code(op)
  }

  /** `self.pc = self.program[self.pc + 1]`, which panics past the end. */
  function JumpTo(program: seq<Byte>, m: Machine): Transition {
    if m.pc + 1 < |program| then Next(m.(pc := program[m.pc + 1]))
    else Fault(PcOutOfRange(m.pc + 1))
  }

  /** `branch_if`: pop rhs, pop lhs, then jump or skip the operand byte. */
  function Branch(program: seq<Byte>, m: Machine, cmp: (Word, Word) -> bool): Transition {
    if |m.stack| < 2 then Fault(StackUnderflow)
    else
      var rhs, lhs := Top(m.stack), Top(Popped(m.stack));
      var m1 := m.(stack := Popped(Popped(m.stack)));
      if cmp(lhs, rhs) then JumpTo(program, m1) else Next(m1.(pc := m.pc + 2))
  }

  /** The effect of executing a decoded opcode (one arm of the match in
      `Vm::run`). */
  function Effect(program: seq<Byte>, m: Machine, op: Opcode): Transition {
    match op
    case Exit => Halt
    case In =>
      var ch := if m.input == [] then 0 else m.input[0] as int;
      Next(m.(stack := m.stack + [ch],
              input := if m.input == [] then [] else m.input[1..],
              pc := m.pc + 1))
    case Out =>
      if m.stack == [] then Fault(StackUnderflow)
      else if !IsScalarValue(Top(m.stack)) then Fault(InvalidCodePoint(Top(m.stack)))
      else Next(m.(stack := Popped(m.stack),
                   output := m.output + [Top(m.stack) as char],
                   pc := m.pc + 1))
    case Jmp => JumpTo(program, m)
    case Dup =>
      if m.stack == [] then Fault(StackUnderflow)
      else Next(m.(stack := m.stack + [Top(m.stack)], pc := m.pc + 1))
    case Bne =>
      if m.stack == [] then Fault(StackUnderflow)
      else
        var m1 := m.(stack := Popped(m.stack));
        if Top(m.stack) != 0 then JumpTo(program, m1) else Next(m1.(pc := m.pc + 2))
    case Bgt => Branch(program, m, Greater)
    case Blt => Branch(program, m, Less)
    case Ble => Branch(program, m, AtMost)
    case Pusha => Next(m.(stack := m.stack + [m.aux], pc := m.pc + 1))
    case Push =>
      if m.pc + 1 < |program| then Next(m.(stack := m.stack + [program[m.pc + 1]], pc := m.pc + 2))
      else Fault(PcOutOfRange(m.pc + 1))
    case Popa =>
      if m.stack == [] then Fault(StackUnderflow)
      else Next(m.(stack := Popped(m.stack), aux := Top(m.stack), pc := m.pc + 1))
    case Add =>
      if |m.stack| < 2 then Fault(StackUnderflow)
      else
        var rhs, lhs := Top(m.stack), Top(Popped(m.stack));
        Next(m.(stack := Popped(Popped(m.stack)) + [Wrap(lhs as int + rhs)], pc := m.pc + 1))
    case Sub =>
      if |m.stack| < 2 then Fault(StackUnderflow)
      else
        var rhs, lhs := Top(m.stack), Top(Popped(m.stack));
        Next(m.(stack := Popped(Popped(m.stack)) + [Wrap(lhs as int - rhs)], pc := m.pc + 1))
    case Beq => Fault(Unimplemented(Beq))
  }

  /** One cycle: fetch the byte at pc, decode it, execute it. */
  function Step(program: seq<Byte>, m: Machine): Transition {
    if m.pc >= |program| then Fault(PcOutOfRange(m.pc))
    else match Decode(program[m.pc])
      case Err(e) => Fault(e)
      case Ok(op) => Effect(program, m, op)
  }

  /** At most `fuel` cycles of the loop in `Vm::run`. */
  function Exec(program: seq<Byte>, m: Machine, fuel: nat): Outcome
    decreases fuel
  {
    if fuel == 0 then OutOfFuel(m)
    else match Step(program, m)
      case Halt => Exited(m)
      case Fault(e) => Failed(e)
      case Next(m') => Exec(program, m', fuel - 1)
  }

  // ---------------------------------------------------------------------
  // Fetch and decode

  /** A fetched opcode is executed as itself. */
  lemma {:induction false} FetchDecodes(program: seq<Byte>, m: Machine, op: Opcode)
    requires Fetches(program, m, op)
    ensures Step(program, m) == Effect(program, m, op)
  {
    DecodeCode(op);
  }

  /** The fetch itself fails when pc is past the end or the byte is not an
      opcode; Exit stops the machine without touching it. */
  lemma StepFetch(program: seq<Byte>, m: Machine)
    ensures m.pc >= |program| ==> Step(program, m) == Fault(PcOutOfRange(m.pc))
    ensures m.pc < |program| && program[m.pc] >= 15 ==>
      Step(program, m) == Fault(InvalidOpcode(program[m.pc]))
    ensures Fetches(program, m, Exit) ==> Step(program, m) == Halt
  {
    if Fetches(program, m, Exit) {
      FetchDecodes(program, m, Exit);
    }
  }

  // ---------------------------------------------------------------------
  // One lemma per opcode

  /** In pushes the next character's code point, or 0 once input is
      exhausted, and consumes at most that one character. */
  lemma StepIn(program: seq<Byte>, m: Machine)
    requires Fetches(program, m, In)
    ensures Step(program, m).Next?
    ensures var m' := Step(program, m).m;
      && m'.stack == m.stack + [if m.input == [] then 0 else m.input[0] as int]
      && (m.input == [] ==> m'.input == [])
      && (m.input != [] ==> [m.input[0]] + m'.input == m.input)
      && m'.pc == m.pc + 1 && m'.aux == m.aux && m'.output == m.output
  {
    FetchDecodes(program, m, In);
  }

  /** Out fails on an empty stack or a word that is no Unicode scalar value;
      otherwise the output grows by exactly that character. */
  lemma StepOut(program: seq<Byte>, m: Machine)
    requires Fetches(program, m, Out)
    ensures m.stack == [] ==> Step(program, m) == Fault(StackUnderflow)
    ensures m.stack != [] && !IsScalarValue(Top(m.stack)) ==>
      Step(program, m) == Fault(InvalidCodePoint(Top(m.stack)))
    ensures m.stack != [] && IsScalarValue(Top(m.stack)) ==>
      && Step(program, m).Next?
      && var m' := Step(program, m).m;
      && m'.output == m.output + [Top(m.stack) as char]
      && m'.output[|m.output|] as int == Top(m.stack)
      && m'.stack == Popped(m.stack)
      && m'.pc == m.pc + 1 && m'.aux == m.aux && m'.input == m.input
  {
    FetchDecodes(program, m, Out);
  }

  /** Dup fails on an empty stack, otherwise pushes a copy of the top. */
  lemma StepDup(program: seq<Byte>, m: Machine)
    requires Fetches(program, m, Dup)
    ensures m.stack == [] <==> Step(program, m) == Fault(StackUnderflow)
    ensures m.stack != [] ==>
      && Step(program, m).Next?
      && var m' := Step(program, m).m;
      && |m'.stack| == |m.stack| + 1
      && Popped(m'.stack) == m.stack && Top(m'.stack) == Top(m.stack)
      && m'.pc == m.pc + 1 && m'.aux == m.aux && m'.input == m.input && m'.output == m.output
  {
    FetchDecodes(program, m, Dup);
  }

  /** Add and Sub need two words; they replace lhs and rhs by lhs+rhs or
      lhs-rhs modulo 2^32, so the stack shrinks by one and everything below
      the operands stays. */
  lemma StepArith(program: seq<Byte>, m: Machine, op: Opcode)
    requires op == Add || op == Sub
    requires Fetches(program, m, op)
    ensures |m.stack| < 2 <==> Step(program, m) == Fault(StackUnderflow)
    ensures |m.stack| >= 2 ==>
      && Step(program, m).Next?
      && var m' := Step(program, m).m;
      && var n := |m.stack|;
      && var lhs, rhs := m.stack[n - 2], m.stack[n - 1];
      && |m'.stack| == n - 1
      && (forall k :: 0 <= k < n - 2 ==> m'.stack[k] == m.stack[k])
      && (op == Add ==> m'.stack[n - 2] == (lhs as int + rhs) % 0x1_0000_0000)
      && (op == Sub ==> m'.stack[n - 2] == (lhs as int - rhs) % 0x1_0000_0000)
      && m'.pc == m.pc + 1 && m'.aux == m.aux && m'.input == m.input && m'.output == m.output
  {
    FetchDecodes(program, m, op);
  }

  /** Bne pops one word and jumps to the operand iff it is non-zero; either
      way the operand byte is consumed. */
  lemma StepBne(program: seq<Byte>, m: Machine)
    requires Fetches(program, m, Bne)
    ensures m.stack == [] ==> Step(program, m) == Fault(StackUnderflow)
    ensures m.stack != [] && Top(m.stack) == 0 ==>
      Step(program, m) == Next(m.(stack := Popped(m.stack), pc := m.pc + 2))
    ensures m.stack != [] && Top(m.stack) != 0 && m.pc + 1 < |program| ==>
      Step(program, m) == Next(m.(stack := Popped(m.stack), pc := program[m.pc + 1]))
    ensures m.stack != [] && Top(m.stack) != 0 && m.pc + 1 >= |program| ==>
      Step(program, m) == Fault(PcOutOfRange(m.pc + 1))
  {
    FetchDecodes(program, m, Bne);
  }

  /** The comparison a conditional branch opcode stands for. */
  predicate Holds(op: Opcode, lhs: Word, rhs: Word)
    requires op == Bgt || op == Blt || op == Ble
  {
    match op
    case Bgt => lhs > rhs
    case Blt => lhs < rhs
    case Ble => lhs <= rhs
  }

  /** Bgt, Blt and Ble pop exactly two words and jump iff lhs >, < or <= rhs
      (lhs second from the top); otherwise pc advances by 2. */
  lemma StepCompare(program: seq<Byte>, m: Machine, op: Opcode)
    requires op == Bgt || op == Blt || op == Ble
    requires Fetches(program, m, op)
    ensures |m.stack| < 2 <==> Step(program, m) == Fault(StackUnderflow)
    ensures |m.stack| >= 2 ==>
      var n := |m.stack|;
      var below := m.(stack := m.stack[..n - 2]);
      if Holds(op, m.stack[n - 2], m.stack[n - 1]) then
        (m.pc + 1 < |program| ==> Step(program, m) == Next(below.(pc := program[m.pc + 1])))
        && (m.pc + 1 >= |program| ==> Step(program, m) == Fault(PcOutOfRange(m.pc + 1)))
      else
        Step(program, m) == Next(below.(pc := m.pc + 2))
  {
    FetchDecodes(program, m, op);
    if |m.stack| >= 2 {
      assert Popped(Popped(m.stack)) == m.stack[..|m.stack| - 2];
    }
  }

  /** Push pushes the operand byte zero-extended and skips it. */
  lemma StepPush(program: seq<Byte>, m: Machine)
    requires Fetches(program, m, Push)
    ensures m.pc + 1 < |program| ==>
      Step(program, m) == Next(m.(stack := m.stack + [program[m.pc + 1]], pc := m.pc + 2))
    ensures m.pc + 1 >= |program| ==> Step(program, m) == Fault(PcOutOfRange(m.pc + 1))
  {
    FetchDecodes(program, m, Push);
  }

  /** Jmp sets pc to the operand and changes nothing else. */
  lemma StepJmp(program: seq<Byte>, m: Machine)
    requires Fetches(program, m, Jmp)
    ensures m.pc + 1 < |program| ==> Step(program, m) == Next(m.(pc := program[m.pc + 1]))
    ensures m.pc + 1 >= |program| ==> Step(program, m) == Fault(PcOutOfRange(m.pc + 1))
  {
    FetchDecodes(program, m, Jmp);
  }

  /** Pusha pushes the auxiliary register; Popa pops into it. */
  lemma StepAux(program: seq<Byte>, m: Machine)
    ensures Fetches(program, m, Pusha) ==>
      Step(program, m) == Next(m.(stack := m.stack + [m.aux], pc := m.pc + 1))
    ensures Fetches(program, m, Popa) && m.stack == [] ==> Step(program, m) == Fault(StackUnderflow)
    ensures Fetches(program, m, Popa) && m.stack != [] ==>
      Step(program, m) == Next(m.(stack := Popped(m.stack), aux := Top(m.stack), pc := m.pc + 1))
  {
    if Fetches(program, m, Pusha) {
      FetchDecodes(program, m, Pusha);
    }
    if Fetches(program, m, Popa) {
      FetchDecodes(program, m, Popa);
    }
  }

  /** Beq decodes, but executing it reaches `todo!()`: it never jumps. */
  lemma StepBeq(program: seq<Byte>, m: Machine)
    requires Fetches(program, m, Beq)
    ensures Step(program, m) == Fault(Unimplemented(Beq))
  {
    FetchDecodes(program, m, Beq);
  }

  // ---------------------------------------------------------------------
  // What a cycle may change

  /** Whatever opcode runs: aux changes only on Popa, the output only grows,
      and only by the one character Out writes, and the input loses at most
      its first character, only on In. */
  lemma {:induction false} StepFrame(program: seq<Byte>, m: Machine)
    requires Step(program, m).Next?
    ensures var m' := Step(program, m).m;
      && (m'.aux != m.aux ==> Fetches(program, m, Popa))
      && (m'.output == m.output
          || (Fetches(program, m, Out) && |m'.output| == |m.output| + 1
              && m'.output[..|m.output|] == m.output))
      && (m'.input == m.input
          || (Fetches(program, m, In) && m.input != [] && m'.input == m.input[1..]))
  {
    var op := Decode(program[m.pc]).value;
    assert Fetches(program, m, op);
    match op
    case Out =>
      StepOut(program, m);
    case In =>
      StepIn(program, m);
    case _ =>
  }

  /** A prefix relation on strings. */
  predicate Extends(longer: string, shorter: string) {
    |shorter| <= |longer| && longer[..|shorter|] == shorter
  }

  /** A suffix relation on the remaining input. */
  predicate Remains(rest: seq<char>, input: seq<char>) {
    |rest| <= |input| && input[|input| - |rest|..] == rest
  }

  // ---------------------------------------------------------------------
  // Whole runs

  /** Over a whole run the output is only ever extended and the input only
      consumed from the front. */
  lemma {:induction false} ExecMonotone(program: seq<Byte>, m: Machine, fuel: nat)
    ensures Exec(program, m, fuel).Exited? ==>
      Extends(Exec(program, m, fuel).final.output, m.output)
      && Remains(Exec(program, m, fuel).final.input, m.input)
    ensures Exec(program, m, fuel).OutOfFuel? ==>
      Extends(Exec(program, m, fuel).last.output, m.output)
      && Remains(Exec(program, m, fuel).last.input, m.input)
    decreases fuel
  {
    if fuel > 0 && Step(program, m).Next? {
      var m' := Step(program, m).m;
      StepMonotone(program, m);
      ExecMonotone(program, m', fuel - 1);
      var r := Exec(program, m', fuel - 1);
      assert Exec(program, m, fuel) == r;
      if r.Exited? {
        Chain(r.final, m', m);
      } else if r.OutOfFuel? {
        Chain(r.last, m', m);
      }
    }
  }

  /** One cycle extends the output and consumes the input from the front. */
  lemma StepMonotone(program: seq<Byte>, m: Machine)
    requires Step(program, m).Next?
    ensures Extends(Step(program, m).m.output, m.output)
    ensures Remains(Step(program, m).m.input, m.input)
  {
    StepFrame(program, m);
  }

  /** Extends and Remains compose across two steps. */
  lemma Chain(later: Machine, middle: Machine, earlier: Machine)
    requires Extends(later.output, middle.output) && Extends(middle.output, earlier.output)
    requires Remains(later.input, middle.input) && Remains(middle.input, earlier.input)
    ensures Extends(later.output, earlier.output) && Remains(later.input, earlier.input)
  {
    assert later.output[..|middle.output|][..|earlier.output|] == later.output[..|earlier.output|];
    var a, b, c := |later.input|, |middle.input|, |earlier.input|;
    assert earlier.input[c - b..][b - a..] == earlier.input[c - a..];
  }

  /** A run that exits stopped on a fetched Exit opcode. */
  lemma {:induction false} ExecExitsOnExit(program: seq<Byte>, m: Machine, fuel: nat)
    requires Exec(program, m, fuel).Exited?
    ensures Fetches(program, Exec(program, m, fuel).final, Exit)
    decreases fuel
  {
    if Step(program, m).Halt? {
      var op := Decode(program[m.pc]).value;
      assert op == Exit;
    } else {
      ExecExitsOnExit(program, Step(program, m).m, fuel - 1);
    }
  }

  /** Extra fuel does not change a run that already finished. */
  lemma {:induction false} ExecFuelMonotone(program: seq<Byte>, m: Machine, fuel: nat, more: nat)
    requires !Exec(program, m, fuel).OutOfFuel?
    requires fuel <= more
    ensures Exec(program, m, more) == Exec(program, m, fuel)
    decreases fuel
  {
    var t := Step(program, m);
    assert Exec(program, m, fuel) == match t
      case Halt => Exited(m)
      case Fault(e) => Failed(e)
      case Next(m') => Exec(program, m', fuel - 1);
    assert Exec(program, m, more) == match t
      case Halt => Exited(m)
      case Fault(e) => Failed(e)
      case Next(m') => Exec(program, m', more - 1);
    if t.Next? {
      ExecFuelMonotone(program, t.m, fuel - 1, more - 1);
    }
  }
}
