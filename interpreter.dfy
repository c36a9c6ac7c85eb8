/** The interpreter of src/vm.rs as it is written: a `Vm` object whose
    fields the fetch-decode-execute loop updates in place, proved against
    the functions of module Semantics. */
module Interpreter {
  import opened Results
  import opened Bytecode
  import opened Semantics

  /** What the public `run` reports: the output on Exit, the fatal error, or
      (only because the model bounds the loop) that the fuel ran out. */
  datatype RunResult = Output(text: string) | Error(err: VmError) | FuelExhausted

  function Report(o: Outcome): (r: RunResult)
    ensures r.Output? <==> o.Exited?
    ensures o.Exited? ==> r.text == o.final.output
    ensures o.Failed? ==> r == Error(o.err)
    ensures r.Error? ==> o.Failed?
  {
    match o
    case Exited(m) => Output(m.output)
    case Failed(e) => Error(e)
    case OutOfFuel(_) => FuelExhausted
  }

  /** The transition an executed arm amounts to: the state it left behind
      if it succeeded, its error otherwise. */
  function Completed(r: Result<(), VmError>, m: Machine): (t: Transition)
    ensures t.Next? <==> r.Ok?
  {
    if r.Ok? then Next(m) else Fault(r.error)
  }

  class Vm {
    const program: seq<Byte>
    var input: seq<char>   // what the `Chars` iterator has not yet yielded
    var output: string
    var pc: nat
    var stack: seq<Word>
    var aux: Word

    /** The abstract state the fields stand for. */
    function State(): Machine
      reads this
    {
      Machine(pc, stack, aux, input, output)
    }

    /** `Vm::new`: pc 0, empty stack, aux 0, no output, the whole input. */
    constructor (program: seq<Byte>, input: string)
      ensures this.program == program
      ensures State() == Initial(input)
    {
      this.program := program;
      this.input := input;
      output := "";
      pc := 0;
      stack := [];
      aux := 0;
    }

    method Push(x: Word)
      modifies this`stack
      ensures stack == old(stack) + [x]
    {
      stack := stack + [x];
    }

    /** Popping an empty stack is an error, never a no-op. */
    method Pop() returns (r: Result<Word, VmError>)
      modifies this`stack
      ensures old(stack) == [] ==> r == Err(StackUnderflow) && stack == old(stack)
      ensures old(stack) != [] ==> r == Ok(Top(old(stack))) && stack == Popped(old(stack))
    {
      if stack == [] {
        return Err(StackUnderflow);
      }
      r := Ok(stack[|stack| - 1]);
      stack := stack[..|stack| - 1];
    }

    /** `branch_if`: pop rhs, pop lhs, jump to the operand if `cmp(lhs, rhs)`,
        otherwise skip the operand byte. */
    method BranchIf(cmp: (Word, Word) -> bool) returns (r: Result<(), VmError>)
      modifies this`stack, this`pc
      ensures Completed(r, State()) == Branch(program, old(State()), cmp)
    {
      var rhs :- Pop();
      var lhs :- Pop();
      if cmp(lhs, rhs) {
        if pc + 1 >= |program| {
          return Err(PcOutOfRange(pc + 1));
        }
        pc := program[pc + 1];
      } else {
        pc := pc + 2;
      }
      return Ok(());
    }

    /** One arm of the dispatch in `Vm::run` for a decoded opcode other
        than Exit; the arms are grouped by what they touch. */
    method Dispatch(op: Opcode) returns (r: Result<(), VmError>)
      requires op != Exit
      modifies this
      ensures Completed(r, State()) == Effect(program, old(State()), op)
    {
      match op {
        case In => r := Exchange(op);
        case Out => r := Exchange(op);
        case Dup => r := Shuffle(op);
        case Pusha => r := Shuffle(op);
        case Popa => r := Shuffle(op);
        case Push => r := Shuffle(op);
        case Add => r := Arithmetic(op);
        case Sub => r := Arithmetic(op);
        case Jmp => r := Transfer(op);
        case Bne => r := Transfer(op);
        case Bgt => r := Transfer(op);
        case Blt => r := Transfer(op);
        case Ble => r := Transfer(op);
        case Beq => r := Transfer(op);
      }
    }

    /** The arms that read the input or write the output. */
    method Exchange(op: Opcode) returns (r: Result<(), VmError>)
      requires op == In || op == Out
      modifies this
      ensures Completed(r, State()) == Effect(program, old(State()), op)
    {
      match op {
        case In =>
          var ch := if input == [] then 0 else input[0] as int;
          if input != [] {
            input := input[1..];
          }
          Push(ch);
          pc := pc + 1;
        case Out =>
          var w :- Pop();
          if !IsScalarValue(w) {
            return Err(InvalidCodePoint(w));
          }
          output := output + [w as char];
          pc := pc + 1;
      }
      return Ok(());
    }

    /** The arms that move words between the program, the stack and the
        auxiliary register. */
    method Shuffle(op: Opcode) returns (r: Result<(), VmError>)
      requires op == Dup || op == Pusha || op == Popa || op == Opcode.Push
      modifies this
      ensures Completed(r, State()) == Effect(program, old(State()), op)
    {
      match op {
        case Dup =>
          if stack == [] {
            return Err(StackUnderflow);
          }
          Push(stack[|stack| - 1]);
          pc := pc + 1;
        case Pusha =>
          Push(aux);
          pc := pc + 1;
        case Popa =>
          aux :- Pop();
          pc := pc + 1;
        case Push =>
          if pc + 1 >= |program| {
            return Err(PcOutOfRange(pc + 1));
          }
          Push(program[pc + 1]);
          pc := pc + 2;
      }
      return Ok(());
    }

    /** The arms that combine the two top words. */
    method Arithmetic(op: Opcode) returns (r: Result<(), VmError>)
      requires op == Add || op == Sub
      modifies this
      ensures Completed(r, State()) == Effect(program, old(State()), op)
    {
      match op {
        case Add =>
          var rhs :- Pop();
          var lhs :- Pop();
          Push(Wrap(lhs as int + rhs));
          pc := pc + 1;
        case Sub =>
          var rhs :- Pop();
          var lhs :- Pop();
          Push(Wrap(lhs as int - rhs));
          pc := pc + 1;
      }
      return Ok(());
    }

    /** The arms that may change the program counter by more than one. */
    method Transfer(op: Opcode) returns (r: Result<(), VmError>)
      requires op == Jmp || op == Bne || op == Bgt || op == Blt || op == Ble || op == Beq
      modifies this
      ensures Completed(r, State()) == Effect(program, old(State()), op)
    {
      match op {
        case Jmp =>
          if pc + 1 >= |program| {
            return Err(PcOutOfRange(pc + 1));
          }
          pc := program[pc + 1];
        case Bne =>
          var top :- Pop();
          if top != 0 {
            if pc + 1 >= |program| {
              return Err(PcOutOfRange(pc + 1));
            }
            pc := program[pc + 1];
          } else {
            pc := pc + 2;
          }
        case Bgt =>
          var _ :- BranchIf(Greater);
        case Blt =>
          var _ :- BranchIf(Less);
        case Ble =>
          var _ :- BranchIf(AtMost);
        case Beq =>
          return Err(Unimplemented(Beq));
      }
      return Ok(());
    }

    /** `Vm::run`: fetch, decode and execute until Exit or a fatal error,
        for at most `fuel` cycles. */
    method Run(fuel: nat) returns (r: RunResult)
      modifies this
      ensures r == Report(Exec(program, old(State()), fuel))
    {
      var remaining := fuel;
      while remaining > 0
        invariant Exec(program, State(), remaining) == Exec(program, old(State()), fuel)
      {
        ghost var before := State();
        assert Exec(program, before, remaining) == match Step(program, before)
          case Halt => Exited(before)
          case Fault(e) => Failed(e)
          case Next(m') => Exec(program, m', remaining - 1);
        if pc >= |program| {
          return Error(PcOutOfRange(pc));
        }
        var decoded := Decode(program[pc]);
        if decoded.Err? {
          return Error(decoded.error);
        }
        var op := decoded.value;
        if op == Exit {
          return Output(output);
        }
        assert Step(program, before) == Effect(program, before, op);
        var status := Dispatch(op);
        if status.Err? {
          return Error(status.error);
        }
        assert Step(program, before) == Next(State());
        remaining := remaining - 1;
      }
      return FuelExhausted;
    }
  }

  /** The public `run`: execute `program` on `input` from the initial state.
      The program must not be empty (a debug assertion in the source). */
  method Run(program: seq<Byte>, input: string, fuel: nat) returns (r: RunResult)
    requires |program| > 0
    ensures r == Report(Exec(program, Initial(input), fuel))
  {
    var vm := new Vm(program, input);
    r := vm.Run(fuel);
  }
}
