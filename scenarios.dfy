/** Concrete programs: small sources assembled to known bytes, and small
    bytecode programs run to a known outcome, one per path of the machine
    that the README table cites. */
module Scenarios {
  import opened Results
  import opened Bytecode
  import opened Semantics
  import opened Assembler

  /** A forward jump over one instruction to an `Exit` labelled `name`. */
  function Skip(name: string): seq<Insn> {
    [ SetTarget(New(Jmp), name),
      SetValue(New(Push), 1),
      SetLabel(New(Exit), name) ]
  }

  /** The emission pass leaves a zero for the jump's operand and records
      where the label is and where it is needed. */
  lemma SkipEmits(name: string)
    ensures Emit(Skip(name)) == [9, 0, 8, 1, 7]
    ensures Labels(Skip(name)) == map[name := 4]
    ensures Relocations(Skip(name)) == [Relocation(name, 1)]
  {
    var source := Skip(name);
    assert source[..0] == [];
    PrefixStep(source, 0);
    PrefixStep(source, 1);
    PrefixStep(source, 2);
    assert source[..3] == source;
  }

  /** The reserved operand byte of the jump is patched with the label. */
  lemma SkipAssembles(name: string)
    ensures Assembled(Skip(name)) == Ok([9, 4, 8, 1, 7])
  {
    SkipEmits(name);
    var relocations, labels := [Relocation(name, 1)], map[name := 4];
    assert relocations[1..] == [];
    assert Patch([9, 4, 8, 1, 7], [], labels) == Ok([9, 4, 8, 1, 7]);
    assert [9, 0, 8, 1, 7][1 := labels[name] % 0x100] == [9, 4, 8, 1, 7];
  }

  /** Running the assembled bytes takes the jump and exits with nothing
      pushed. */
  lemma SkipRuns(input: seq<char>)
    ensures Exec([9, 4, 8, 1, 7], Initial(input), 2) == Exited(Machine(4, [], 0, input, ""))
  {
  }

  /** A target that no instruction defines is reported by name. */
  lemma DanglingTarget(name: string)
    ensures Assembled([SetTarget(New(Jmp), name)]) == Err(MissingLabel(name))
  {
    var source := [SetTarget(New(Jmp), name)];
    assert source[..0] == [];
    PrefixStep(source, 0);
    assert source[..1] == source;
  }

  /** `Push 'a'; Out; Exit` writes one character. */
  lemma PushOutExit(input: seq<char>)
    ensures Exec([8, 97, 1, 7], Initial(input), 3) == Exited(Machine(3, [], 0, input, "a"))
  {
  }

  /** `In; Out; Exit` echoes the first input character. */
  lemma EchoFirst(c: char, rest: seq<char>)
    ensures Exec([0, 1, 7], Initial([c] + rest), 3) == Exited(Machine(2, [], 0, rest, [c]))
  {
    assert ([c] + rest)[1..] == rest;
  }

  /** `In` on exhausted input pushes zero, which is written as NUL. */
  lemma EchoEmpty()
    ensures Exec([0, 1, 7], Initial(""), 3) == Exited(Machine(2, [], 0, "", "\0"))
  {
  }

  /** `Dup` on an empty stack faults. */
  lemma DupUnderflow(input: seq<char>)
    ensures Exec([2, 7], Initial(input), 2) == Failed(StackUnderflow)
  {
  }

  /** A byte past the last opcode faults. */
  lemma BadOpcode(input: seq<char>)
    ensures Exec([15], Initial(input), 1) == Failed(InvalidOpcode(15))
  {
  }

  /** Running off the end of the program faults. */
  lemma FallOffEnd(input: seq<char>)
    ensures Exec([8, 1], Initial(input), 2) == Failed(PcOutOfRange(2))
  {
  }

  /** `Push 3; Push 5; Blt t; Push 0; Exit; t: Push 1; Exit` takes the
      branch, since the deeper value 3 is less than the top value 5. */
  lemma BranchTaken(input: seq<char>)
    ensures Exec([8, 3, 8, 5, 6, 9, 8, 0, 7, 8, 1, 7], Initial(input), 5)
         == Exited(Machine(11, [1], 0, input, ""))
  {
    var program: seq<Byte> := [8, 3, 8, 5, 6, 9, 8, 0, 7, 8, 1, 7];
    var m1 := Machine(2, [3], 0, input, "");
    var m2 := Machine(4, [3, 5], 0, input, "");
    var m3 := Machine(9, [], 0, input, "");
    var m4 := Machine(11, [1], 0, input, "");
    StepPush(program, Initial(input));
    StepPush(program, m1);
    StepCompare(program, m2, Blt);
    StepPush(program, m3);
    StepFetch(program, m4);
  }

  /** `Push 0; Push 1; Sub; Exit`. */
  const Underflowing: seq<Byte> := [8, 0, 8, 1, 4, 7]

  /** Subtracting 1 from 0 wraps around to 2^32 - 1. */
  lemma SubWraps(input: seq<char>)
    ensures Exec(Underflowing, Initial(input), 4) == Exited(Machine(5, [0xFFFF_FFFF], 0, input, ""))
  {
    var m1 := Machine(2, [0], 0, input, "");
    var m2 := Machine(4, [0, 1], 0, input, "");
    var m3 := Machine(5, [0xFFFF_FFFF], 0, input, "");
    StepPush(Underflowing, Initial(input));
    StepPush(Underflowing, m1);
    StepArith(Underflowing, m2, Sub);
    assert (0 - 1) % 0x1_0000_0000 == 0xFFFF_FFFF;
    assert Step(Underflowing, m2) == Next(m3);
    StepFetch(Underflowing, m3);
    assert Exec(Underflowing, m2, 2) == Exited(m3);
    assert Exec(Underflowing, m1, 3) == Exited(m3);
  }
}
