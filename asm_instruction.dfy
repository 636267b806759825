/** `AsmInstruction`: an opcode token with up to three operand tokens, and its byte encoding. */
module AsmInstructions {
  import opened Wrappers
  import opened Instruction
  import opened Tokens
  import opened Helpers
  import opened SymbolTable

  datatype AsmInstruction = AsmInstruction(
    opcode: Option<Token>,
    labelToken: Option<Token>,  // the `label` field (`label` is a Dafny keyword)
    directive: Option<Token>,
    operand1: Option<Token>,
    operand2: Option<Token>,
    operand3: Option<Token>)

  /** The byte of an operand that is a `Register` token; nothing for any other operand. */
  function RegisterBytes(operand: Option<Token>): (r: seq<u8>)
    ensures |r| <= 1
    ensures r != [] <==> operand.Some? && operand.value.Register?
  {
    match operand
    case Some(Register(n)) => [n]
    case _ => []
  }

  /** The part `to_bytes` writes for the `opcode` field. */
  function OpcodeBytes(instr: AsmInstruction): seq<u8> {
    match instr.opcode
    case Some(Op(LOAD)) =>
      [OpcodeByte(LOAD)] + RegisterBytes(instr.operand1)
      + (match instr.operand2 case Some(IntegerOperand(v)) => ParseI32ToBytes(v) case _ => [])
    case Some(Op(code)) => [OpcodeByte(code)]
    case _ => []
  }

  /** `AsmInstruction::to_bytes`; the symbol table is accepted and never read. */
  function ToBytes(instr: AsmInstruction, symbols: seq<Symbol>): (r: seq<u8>)
    ensures |r| <= 9
  {
    OpcodeBytes(instr) + RegisterBytes(instr.operand1) + RegisterBytes(instr.operand2) + RegisterBytes(instr.operand3)
  }

  /** The register bytes of the three operands, in order. */
  function OperandRegisters(instr: AsmInstruction): seq<u8> {
    RegisterBytes(instr.operand1) + RegisterBytes(instr.operand2) + RegisterBytes(instr.operand3)
  }

  /** With an `Op` token the output starts with that opcode's table byte. */
  lemma ToBytesStartsWithOpcode(instr: AsmInstruction, symbols: seq<Symbol>)
    requires instr.opcode.Some? && instr.opcode.value.Op?
    ensures |ToBytes(instr, symbols)| >= 1
    ensures ToBytes(instr, symbols)[0] == OpcodeByte(instr.opcode.value.code)
  {
  }

  /** Without an `Op` token no opcode byte is written: only the operands' register bytes remain. */
  lemma ToBytesWithoutOpcode(instr: AsmInstruction, symbols: seq<Symbol>)
    requires instr.opcode.None? || !instr.opcode.value.Op?
    ensures ToBytes(instr, symbols) == OperandRegisters(instr)
  {
  }

  /** For every opcode but LOAD: the opcode byte, then the register operands in order; other operands add nothing. */
  lemma ToBytesNonLoad(instr: AsmInstruction, symbols: seq<Symbol>)
    requires instr.opcode.Some? && instr.opcode.value.Op? && instr.opcode.value.code != LOAD
    ensures ToBytes(instr, symbols) == [OpcodeByte(instr.opcode.value.code)] + OperandRegisters(instr)
  {
  }

  /** LOAD writes its register twice: once after the opcode and once in the operand section. */
  lemma ToBytesLoad(r: u8, v: i32, op3: Option<Token>, symbols: seq<Symbol>)
    ensures var instr := AsmInstruction(Some(Op(LOAD)), None, None, Some(Register(r)), Some(IntegerOperand(v)), op3);
      ToBytes(instr, symbols) == [1, r] + ParseI32ToBytes(v) + [r] + RegisterBytes(op3)
  {
    var instr := AsmInstruction(Some(Op(LOAD)), None, None, Some(Register(r)), Some(IntegerOperand(v)), op3);
    var imm := ParseI32ToBytes(v);
    assert OpcodeBytes(instr) == [1] + [r] + imm;
    assert RegisterBytes(instr.operand1) == [r];
    assert RegisterBytes(instr.operand2) == [];
  }

  /** The output depends only on the instruction. */
  lemma ToBytesIgnoresSymbols(instr: AsmInstruction, s1: seq<Symbol>, s2: seq<Symbol>)
    ensures ToBytes(instr, s1) == ToBytes(instr, s2)
  {
  }
}
