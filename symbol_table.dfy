/** `Symbol` and `SymbolType` of the assembler's symbol table. */
module SymbolTable {
  import opened Wrappers

  datatype SymbolType = Label | Integer | IrString

  datatype Symbol = Symbol(name: string, offset: Option<u32>, symbolType: SymbolType)

  /** `Symbol::new`: a symbol whose offset is not yet known. */
  function NewSymbol(name: string, symbolType: SymbolType): (s: Symbol)
    ensures s.name == name && s.symbolType == symbolType && s.offset == None
  {
    Symbol(name, None, symbolType)
  }

  /** `Symbol::new_with_offset`. */
  function NewSymbolWithOffset(name: string, symbolType: SymbolType, offset: u32): (s: Symbol)
    ensures s.name == name && s.symbolType == symbolType && s.offset == Some(offset)
  {
    Symbol(name, Some(offset), symbolType)
  }

  /** The two constructors differ only in the offset they record. */
  lemma ConstructorsDifferOnlyInOffset(name: string, symbolType: SymbolType, offset: u32)
    ensures NewSymbolWithOffset(name, symbolType, offset) == NewSymbol(name, symbolType).(offset := Some(offset))
    ensures NewSymbol(name, symbolType) == NewSymbolWithOffset(name, symbolType, offset).(offset := None)
  {
  }
}
