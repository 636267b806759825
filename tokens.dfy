/** The assembler's `Token`, the unit the tokenizer produces and the encoders consume. */
module Tokens {
  import opened Wrappers
  import opened Instruction

  /** An `f32` payload, kept as its bit pattern; float values are not interpreted. */
  datatype Float = Float(bits: bv32)

  datatype Token =
    | Op(code: Opcode)
    | Register(regNum: u8)
    | IntegerOperand(value: i32)
    | FloatOperand(float: Float)
    | LabelDeclaration(name: string)
    | LabelUsage(name: string)
    | Directive(name: string)
    | IrString(name: string)
    | Comment
}
