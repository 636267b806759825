/** The opcode table: the VM's byte decoder and the assembler's byte encoder. */
module Instruction {
  import opened Wrappers

  /** Every opcode either side of the program names; the decoder's enum lacks the last three. */
  datatype Opcode =
    | HLT | IGL | LOAD | ADD | SUB | MUL | DIV | JMP | JMPF
    | EQ | NEQ | GT | LT | GTQ | LTQ | JMPEQ | LABEL | SQUARE | ALLOC | SET

  /** `Opcode::from(u8)`: the VM's decoder. */
  function FromByte(value: u8): (op: Opcode)
    ensures op == IGL <==> value > 15
    ensures op != SQUARE && op != ALLOC && op != SET
  {
    if value == 15 then LABEL
    else if value == 14 then JMPEQ
    else if value == 13 then LTQ
    else if value == 12 then GTQ
    else if value == 11 then LT
    else if value == 10 then GT
    else if value == 9 then NEQ
    else if value == 8 then EQ
    else if value == 7 then JMPF
    else if value == 6 then JMP
    else if value == 5 then DIV
    else if value == 4 then MUL
    else if value == 3 then SUB
    else if value == 2 then ADD
    else if value == 1 then LOAD
    else if value == 0 then HLT
    else IGL
  }

  /** The assembler's opcode byte, as both of its encoders write it. */
  function OpcodeByte(op: Opcode): u8 {
    match op
    case HLT => 0
    case IGL => 0
    case LOAD => 1
    case ADD => 2
    case SUB => 3
    case MUL => 4
    case DIV => 5
    case JMP => 6
    case JMPF => 7
    case EQ => 8
    case NEQ => 9
    case GT => 10
    case LT => 11
    case GTQ => 12
    case LTQ => 13
    case JMPEQ => 14
    case LABEL => 15
    case SQUARE => 16
    case ALLOC => 17
    case SET => 18
  }

  /** On 0..=15 the encoder table undoes the decoder, so the decoder is injective there. */
  lemma EncodeAfterDecode(value: u8)
    requires value <= 15
    ensures OpcodeByte(FromByte(value)) == value
  {
  }

  lemma FromByteInjective(a: u8, b: u8)
    requires a <= 15 && b <= 15
    requires FromByte(a) == FromByte(b)
    ensures a == b
  {
    EncodeAfterDecode(a);
    EncodeAfterDecode(b);
  }

  /** The VM decodes the assembler's byte back to the same opcode exactly for the opcodes it knows. */
  lemma DecodeAfterEncode(op: Opcode)
    ensures FromByte(OpcodeByte(op)) == op <==> op !in {IGL, SQUARE, ALLOC, SET}
    ensures op == IGL ==> OpcodeByte(op) == 0 && FromByte(OpcodeByte(op)) == HLT
    ensures op in {SQUARE, ALLOC, SET} ==> FromByte(OpcodeByte(op)) == IGL
  {
  }

  /** `Instruction`: a record holding one opcode. */
  datatype Instruction = Instruction(opcode: Opcode)

  /** `Instruction::new`. */
  function NewInstruction(opcode: Opcode): (i: Instruction)
    ensures i.opcode == opcode
  {
    Instruction(opcode)
  }
}
