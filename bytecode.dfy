/** The closed instruction set of the virtual machine (src/vm.rs), its
    one-byte encoding and the runtime errors of the interpreter. */
module Bytecode {
  import opened Results

  /** An unsigned byte (`u8`). */
  type Byte = b: int | 0 <= b < 0x100

  /** An unsigned 32-bit word (`u32`), the element type of the data stack. */
  type Word = w: int | 0 <= w < 0x1_0000_0000

  const WordModulus: int := 0x1_0000_0000

  /** The fifteen opcodes, in the order of their discriminants. */
  datatype Opcode =
    | In     // 0
    | Out    // 1
    | Dup    // 2
    | Add    // 3
    | Sub    // 4
    | Bne    // 5
    | Blt    // 6
    | Exit   // 7
    | Push   // 8
    | Jmp    // 9
    | Beq    // 10
    | Pusha  // 11
    | Popa   // 12
    | Bgt    // 13
    | Ble    // 14

  /** Why a run of the interpreter stops without reaching Exit. */
  datatype VmError =
    | InvalidOpcode(byte: Byte)      // the fetched byte is not a discriminant
    | StackUnderflow                 // a pop (or Dup's peek) on an empty stack
    | InvalidCodePoint(word: Word)   // Out popped a word that is not a Unicode scalar value
    | PcOutOfRange(index: nat)       // the program was indexed past its end (a panic)
    | Unimplemented(op: Opcode)      // an opcode that decodes but is not dispatched (`todo!()`)

  /** The discriminant of an opcode (`opcode as u8`). */
  function Code(op: Opcode): (b: Byte)
    ensures b < 15
  {
    match op
    case In => 0
    case Out => 1
    case Dup => 2
    case Add => 3
    case Sub => 4
    case Bne => 5
    case Blt => 6
    case Exit => 7
    case Push => 8
    case Jmp => 9
    case Beq => 10
    case Pusha => 11
    case Popa => 12
    case Bgt => 13
    case Ble => 14
  }

  /** The checked conversion `Opcode::try_from(u8)`: exactly the bytes 0..14
      decode, each to the opcode with that discriminant. */
  function Decode(b: Byte): (r: Result<Opcode, VmError>)
    ensures r.Ok? <==> b < 15
    ensures r.Ok? ==> Code(r.value) == b
    ensures r.Err? ==> r.error == InvalidOpcode(b)
  {
    match b
    case 0 => Ok(In)
    case 1 => Ok(Out)
    case 2 => Ok(Dup)
    case 3 => Ok(Add)
    case 4 => Ok(Sub)
    case 5 => Ok(Bne)
    case 6 => Ok(Blt)
    case 7 => Ok(Exit)
    case 8 => Ok(Push)
    case 9 => Ok(Jmp)
    case 10 => Ok(Beq)
    case 11 => Ok(Pusha)
    case 12 => Ok(Popa)
    case 13 => Ok(Bgt)
    case 14 => Ok(Ble)
    case _ => Err(InvalidOpcode(b))
  }

  /** Decoding inverts encoding: the byte written for an opcode reads back as
      that opcode. */
  lemma {:induction false} DecodeCode(op: Opcode)
    ensures Decode(Code(op)) == Ok(op)
  {
    match op
    case In =>
    case Out =>
    case Dup =>
    case Add =>
    case Sub =>
    case Bne =>
    case Blt =>
    case Exit =>
    case Push =>
    case Jmp =>
    case Beq =>
    case Pusha =>
    case Popa =>
    case Bgt =>
    case Ble =>
  }

  /** Distinct opcodes have distinct discriminants. */
  lemma CodeInjective(a: Opcode, b: Opcode)
    ensures Code(a) == Code(b) ==> a == b
  {
    DecodeCode(a);
    DecodeCode(b);
  }

  /** The opcode's name as `#[derive(Debug)]` renders it. */
  function Name(op: Opcode): (s: string)
    ensures 2 <= |s| <= 5
    ensures forall i :: 0 <= i < |s| ==> 'A' <= s[i] <= 'Z' || 'a' <= s[i] <= 'z'
  {
    match op
    case In => "In"
    case Out => "Out"
    case Dup => "Dup"
    case Add => "Add"
    case Sub => "Sub"
    case Bne => "Bne"
    case Blt => "Blt"
    case Exit => "Exit"
    case Push => "Push"
    case Jmp => "Jmp"
    case Beq => "Beq"
    case Pusha => "Pusha"
    case Popa => "Popa"
    case Bgt => "Bgt"
    case Ble => "Ble"
  }

  /** Distinct opcodes print under distinct names. */
  lemma NameInjective(a: Opcode, b: Opcode)
    ensures Name(a) == Name(b) ==> a == b
  {
  }
}
