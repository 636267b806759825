# pecet-vm in Dafny

A model of pecet-vm, a toy register virtual machine with an assembler, and
proofs about that model. The model has these parts:

- **The opcode table.** `instruction.dfy` holds the VM's byte decoder `Opcode::from`. It also holds the table
  of bytes the assembler writes for each opcode.
- **The immediate encoder.** `helpers.dfy` holds `parse_i32_to_vecu8`. It is a cascade of range branches that
  turns an `i32` into four bytes. It is compared against big-endian two's complement.
- **The assembler** of `assembler/mod.rs`:
  - `parsers.dfy` holds the nom lexers, written as string rules;
  - `assembler.dfy` holds `tokenize`, `compile`, `to_asm_instructions` and `process_first_phase`, as loops
    proved against functions of the token list;
  - `asm_instruction.dfy` holds `AsmInstruction::to_bytes`;
  - `symbol_table.dfy` holds `Symbol`.
- **The hand-written lexer draft** of `assembler/mod__.rs` is in `lexer.dfy`. It is a class with a `position`
  cursor. Its `read_*` loops are proved against functions of the characters and the starting position.
- **The VM** of `vm.rs`:
  - `vm.dfy` holds `Step`, a function from one machine state to the next, and `RunFrom`. It also holds the
    class `VM`, whose `execute_instruction` and `run` update the registers, `pc`, `remainder` and `equal_flag`
    in place and are proved against `Step` and `RunFrom`;
  - `vm_properties.dfy` states what each instruction does.
- **The REPL's `parse_hex`** is in `repl.dfy`. It is a loop proved against `ParseHexSpec`.
- **Rust's integer parsing,** which the draft lexer and `parse_hex` call, is in `int_parse.dfy`. It covers
  `from_str_radix`, `parse::<u8>` and `parse::<i32>`.

Behaviour of the source that these notes depend on:

- **Panics.** A panic of the source is `None` (or `NoMatch`) from a total specification function. The
  method that models the panicking operation requires that this does not happen. Panics include:
  - an out-of-range `program[pc]` read;
  - a register index of 32 or more;
  - a division by zero;
  - `i32` overflow, which is a panic in a debug build;
  - an `unwrap` on a failed parse;
  - a character that `next_token` does not accept.
- **JMPF.** `JMPF` then fails exactly when `pc + 2 + offset` does not fit in a `usize`.
- **LOAD width.** The assembler writes LOAD's immediate as 4 bytes (`assembler/mod.rs:100-104` and
  `asm_instruction.rs:31-39`). The VM reads 2 bytes (`vm.rs:31-35`, `vm.rs:165`). Each side is modelled as
  written, and no compile-then-run property is stated for LOAD.
- **The vm.rs unit tests.**
  - Their expectations do not follow from the code.
  - The lemmas state what the code computes on the tests' programs:
    - `test_opcode_hlt` runs `ADD`, giving pc 4;
    - `test_unrecognized` divides by zero, which panics;
    - `test_load_opcode` leaves 256 in r0, not 1025;
    - `test_alu` leaves 286 in r1 and 0 in r0, not 1024;
    - `test_jmpeq` leaves pc at 2, not 7.
- **The opcode enum.**
  - The `Opcode` enum of `instruction.rs` lacks `SQUARE`, `ALLOC` and `SET`, which the assembler uses.
  - The model's `Opcode` has all twenty variants.
  - The decoder never yields the three extra variants.

## Model

| member | source | states |
|---|---|---|
| Instruction.FromByte | src/instruction.rs:23-45 | decodes to IGL exactly for bytes above 15, and never to SQUARE, ALLOC or SET |
| Instruction.EncodeAfterDecode | src/instruction.rs:25-41 | on 0..=15 the assembler's opcode byte of the decoded opcode is the byte itself |
| Instruction.FromByteInjective | src/instruction.rs:25-41 | two bytes in 0..=15 that decode alike are equal |
| Instruction.DecodeAfterEncode | src/assembler/mod.rs:108-126 | decoding the assembler's byte gives the opcode back exactly for the opcodes other than IGL, SQUARE, ALLOC and SET; IGL is written as 0, which decodes to HLT; the other three decode to IGL |
| Instruction.NewInstruction | src/instruction.rs:53-55 | the instruction holds exactly the given opcode |
| Helpers.ParseI32ToBytes | src/assembler/helpers.rs:1-64 | the result has exactly four bytes |
| Helpers.TwosComplementRoundTrip | src/assembler/helpers.rs:27-35 | reading the big-endian two's-complement bytes of a value as an `i32` gives the value |
| Helpers.ParseI32ToBytesEffect | src/assembler/helpers.rs:3-56 | above -16_777_215 the four bytes are the big-endian two's complement of the value; at or below it they are [1, 1, 1, value mod 256]; so the branches at lines 36-51 and 57-62 are never taken |
| Helpers.ParseI32ToBytesRoundTrip | src/assembler/helpers.rs:3-35 | above -16_777_215 the bytes decode back to the value |
| Helpers.ParseI32ToBytesCases | src/assembler/helpers.rs:20-35 | 256..=65535 gives [0, 0, value / 256, value % 256], 0..=255 gives [0, 0, 0, value], and -1 gives [255, 255, 255, 255] |
| SymbolTable.NewSymbol | src/assembler/symbol_table.rs:8-14 | keeps name and type, and has no offset |
| SymbolTable.NewSymbolWithOffset | src/assembler/symbol_table.rs:15-21 | keeps name and type, and has `Some(offset)` |
| SymbolTable.ConstructorsDifferOnlyInOffset | src/assembler/symbol_table.rs:8-21 | the two constructors give symbols that differ only in the offset |
| AsmInstructions.RegisterBytes | src/assembler/asm_instruction.rs:64-87 | an operand adds one byte exactly when it is a `Register`, and never more than one |
| AsmInstructions.ToBytes | src/assembler/asm_instruction.rs:16-89 | at most nine bytes are written |
| AsmInstructions.ToBytesStartsWithOpcode | src/assembler/asm_instruction.rs:18-59 | with an `Op` token the first byte is that opcode's table byte |
| AsmInstructions.ToBytesWithoutOpcode | src/assembler/asm_instruction.rs:18-63 | without an `Op` token no opcode byte is written, only the operands' register bytes |
| AsmInstructions.ToBytesNonLoad | src/assembler/asm_instruction.rs:41-87 | for every opcode but LOAD: the opcode byte, then the register operands in order, and nothing for any other operand |
| AsmInstructions.ToBytesLoad | src/assembler/asm_instruction.rs:21-71 | LOAD r, v gives [1, r], the four bytes of v and r once more, then the third operand's register byte |
| AsmInstructions.ToBytesIgnoresSymbols | src/assembler/asm_instruction.rs:16-89 | the output does not depend on the symbol table |
| Parsers.FirstTag | src/assembler/parsers.rs:15-34 | gives the first mnemonic from index k on that the input starts with, case-insensitively; none before it matches; None when no mnemonic from k on matches |
| Parsers.ParseOpcode | src/assembler/parsers.rs:14-59 | a match consumes a non-empty prefix and yields an `Op` token |
| Parsers.ParseOpcodeMatches | src/assembler/parsers.rs:15-58 | matches exactly when the input starts with a listed mnemonic; it then consumes the first such mnemonic in the list and yields its opcode |
| Parsers.ParseOpcodeNeverYields | src/assembler/parsers.rs:15-56 | never yields JMPF, JMPEQ, GTQ or LTQ (a shorter mnemonic listed earlier wins), nor SET (not listed), nor IGL |
| Parsers.MnemonicCodes | src/assembler/parsers.rs:16-54 | only the "jmpf", "gtq", "ltq" and "jmpeq" entries map to those opcodes, and "jmp", "gt" and "lt" are prefixes of them |
| Parsers.ParseOpcodeAddress | src/assembler/parsers.rs:15-58 | "address" gives ADD with "ress" left, since no word boundary is needed |
| Parsers.ParseOpcodeJmpf | src/assembler/parsers.rs:15-58 | "jmpf" gives JMP with "f" left |
| Parsers.ParseRegister | src/assembler/parsers.rs:61-66 | matches exactly on '$' and a digit; consumes the whole digit run and yields its decimal value; the rest is untouched |
| Parsers.ParseInteger | src/assembler/parsers.rs:69-75 | matches exactly on a digit, or a '-' and a digit; yields the value of the digit run, negated after '-' |
| Parsers.TakeWhile1 | src/assembler/parsers.rs:93 | splits off the longest non-empty prefix whose characters all satisfy the predicate, exactly when the first one does |
| Parsers.ParseLabelDeclaration | src/assembler/parsers.rs:92-100 | matches exactly on an alphanumeric or ':'; the name is the longest run of those, ':' included, and no ':' is required |
| Parsers.ParseLabelUsage | src/assembler/parsers.rs:103-111 | the same rule, with '@' in place of ':' |
| Parsers.ParseDirective | src/assembler/parsers.rs:114-124 | matches exactly on '.' and a letter; the name is the run of letters, without the dot |
| Parsers.ParseString | src/assembler/parsers.rs:127-138 | matches exactly on a '"', a non-quote character and a later '"'; the name is the non-empty, quote-free text between the quotes, and both quotes are consumed |
| Parsers.ParseComment | src/assembler/parsers.rs:141-145 | matches exactly on ';' and a character other than a newline; consumes up to and not including the next '\n' |
| IntParse.ToDigit | src/repl/mod.rs:28 | a digit exists exactly for 0-9 and for letters of either case whose value is below the radix, and it is below the radix |
| IntParse.FromStrRadix | src/repl/mod.rs:28 | every success lies in the type's range, and the error is `Empty` exactly for the empty string |
| IntParse.FromStrRadixDigits | src/repl/mod.rs:28 | a non-empty string of valid digits parses to its value, or fails with `PosOverflow` above the maximum |
| IntParse.FromStrRadixNegDigits | src/assembler/parsers.rs:70-72 | in a signed type, '-' and valid digits give minus their value, or `NegOverflow` below the minimum |
| IntParse.FromStrRadixPlus | src/repl/mod.rs:28 | a leading '+' before valid digits changes nothing |
| IntParse.FromStrRadixUpper | src/repl/mod.rs:28 | upper-casing the input never changes the result |
| IntParse.FromStrRadixSigns | src/repl/mod.rs:28 | a lone sign is `InvalidDigit`, and so is '-' in front of an unsigned number |
| IntParse.ParseU8 | src/repl/mod.rs:28 | `u8::from_str_radix` fails exactly when the general parse with range 0..=255 fails, and otherwise gives its value |
| IntParse.ParseI32 | src/assembler/mod__.rs:89-91 | `str::parse::<i32>` fails exactly when the general signed parse with the `i32` range fails, and otherwise gives its value |
| DraftLexer.GetOpcode | src/assembler/mod__.rs:176-184 | the only opcode it can give is LOAD |
| DraftLexer.Classify | src/assembler/mod__.rs:108-134 | the name becomes a register, label declaration, directive, opcode or label usage; the ':' is consumed exactly for a label declaration; labels and directives keep the whole name |
| DraftLexer.Assembler.constructor | src/assembler/mod__.rs:195-199 | the lexer holds the input's characters with the position at 0 |
| DraftLexer.Assembler.Peek | src/assembler/mod__.rs:39-45 | gives the character at the position exactly when the position is in bounds, and never moves |
| DraftLexer.Assembler.Advance | src/assembler/mod__.rs:47-55 | gives the current character and moves one place when in bounds; at the end it gives None and does not move |
| DraftLexer.Assembler.SkipWhitespace | src/assembler/mod__.rs:57-64 | moves to the end of the run of whitespace |
| DraftLexer.Assembler.ScanNumber | src/assembler/mod__.rs:66-83 | collects the first character and the run of digits and dots after it, and records whether a '.' was seen |
| DraftLexer.Assembler.ReadNumber | src/assembler/mod__.rs:66-93 | the token and end position are those of `ReadNumberSpec` |
| DraftLexer.Assembler.ScanIdentifier | src/assembler/mod__.rs:95-106 | collects the first character and the run of alphanumerics and '_' after it |
| DraftLexer.Assembler.ReadIdentifier | src/assembler/mod__.rs:95-135 | the token and end position are those of `ReadIdentifierSpec` |
| DraftLexer.Assembler.ReadString | src/assembler/mod__.rs:137-149 | the token and end position are those of `ReadStringSpec` |
| DraftLexer.Assembler.ReadComment | src/assembler/mod__.rs:151-159 | yields `Comment` and stops where `ReadCommentEnd` says |
| DraftLexer.Assembler.NextToken | src/assembler/mod__.rs:161-173 | the token and new position are those of `NextTokenSpec` |
| DraftLexerProperties.SkipWhitespaceStops | src/assembler/mod__.rs:57-64 | only whitespace is skipped, and the stop is at the end or on a non-whitespace character |
| DraftLexerProperties.ReadCommentStopsAtNewline | src/assembler/mod__.rs:151-159 | consumes no '\n', and stops at the end or on a '\n' |
| DraftLexerProperties.NextTokenNoneIffWhitespace | src/assembler/mod__.rs:161-164 | gives None exactly when only whitespace remains, and then stands at the end |
| DraftLexerProperties.NextTokenPanics | src/assembler/mod__.rs:161-173 | panics exactly on a character that starts no token, or on a number lexeme that does not parse |
| DraftLexerProperties.NextTokenDispatch | src/assembler/mod__.rs:166-170 | digits and '-' go to `read_number`; letters, '$', '_' and '.' go to `read_identifier`; '"' goes to `read_string`; ';' goes to `read_comment` |
| DraftLexerProperties.NumberTokenKind | src/assembler/mod__.rs:84-92 | the number is a float exactly when its lexeme holds a '.' |
| DraftLexerProperties.NumberTokenDecimal | src/assembler/mod__.rs:88-92 | decimal digits give the integer of their value, and panic above the `i32` maximum |
| DraftLexerProperties.NumberTokenNegative | src/assembler/mod__.rs:88-92 | '-' and digits give minus their value, down to the `i32` minimum |
| DraftLexerProperties.NumberTokenPanics | src/assembler/mod__.rs:84-92 | "-", "1.2.3" and "-." all panic |
| DraftLexerProperties.GetOpcodeUpper | src/assembler/mod__.rs:179-182 | matches exactly when the upper-cased name is "LOAD" |
| DraftLexerProperties.GetOpcodeIgnoresCase | src/assembler/mod__.rs:179-182 | upper-casing the name does not change the lookup |
| DraftLexerProperties.ClassifyPriority | src/assembler/mod__.rs:108-134 | the classes are tried in order: register, then label declaration (next char ':'), then directive, then opcode, then label usage |
| DraftLexerProperties.ClassifyRegister | src/assembler/mod__.rs:109-112 | '$' or 'r' and a decimal number up to 255 is that register, even before a ':', which stays unconsumed |
| DraftLexerProperties.ClassifyRegisterOverflow | src/assembler/mod__.rs:109-134 | 'r' and a number above 255 is not a register; it becomes a label |
| DraftLexerProperties.ReadStringShape | src/assembler/mod__.rs:137-149 | the character after the opening quote is dropped; the name runs to the next '"' (consumed) or to the end, and holds no '"' |
| DraftLexerProperties.TestIntegerOperand | src/assembler/mod__.rs:192-205 | "42" gives `IntegerOperand(42)` |
| DraftLexerProperties.TestFloatOperand | src/assembler/mod__.rs:207-220 | "42.5" gives a float with lexeme "42.5" |
| DraftLexerProperties.FloatLexemeExample | src/assembler/mod__.rs:84-87 | "42.5" is a valid float lexeme |
| DraftLexerProperties.TestLabelDeclaration | src/assembler/mod__.rs:222-237 | "main:" gives `LabelDeclaration("main")`, with the ':' consumed |
| DraftLexerProperties.TestRegister | src/assembler/mod__.rs:239-249 | "$1" gives `Register(1)` |
| DraftLexerProperties.ClassifyRegisterBeforeColon | src/assembler/mod__.rs:109-112 | "r1" before ':' is register 1 |
| DraftLexerProperties.ClassifyMnemonicBeforeColon | src/assembler/mod__.rs:116-121 | "load" before ':' is a label declaration |
| DraftLexerProperties.ClassifyDirective | src/assembler/mod__.rs:124-126 | ".data" is a directive named ".data" |
| DraftLexerProperties.ClassifyMixedCaseMnemonic | src/assembler/mod__.rs:129-131 | "LoAd" is the LOAD opcode |
| DraftLexerProperties.ClassifyRegisterTooLarge | src/assembler/mod__.rs:109-134 | "r256" is a label usage, since 256 does not fit a `u8` |
| DraftLexerProperties.ReadStringDropsFirst | src/assembler/mod__.rs:137-149 | `"abc"` lexes as "bc" |
| DraftLexerProperties.ReadStringEmptyAtEnd | src/assembler/mod__.rs:137-149 | an empty literal at the end of the input loses its closing quote and gives an empty name |
| DraftLexerProperties.ReadStringEmptyReadsOn | src/assembler/mod__.rs:137-149 | an empty literal elsewhere reads on to the next '"' |
| Asm.LexOne | src/assembler/mod.rs:277-287 | a match consumes input, and an `Op` token is what `parse_opcode` gives, which is tried first |
| Asm.SkipMultispace | src/assembler/mod.rs:272 | drops exactly the leading spaces, tabs, carriage returns and newlines |
| Asm.TokenizeErrorPosition | src/assembler/mod.rs:271-294 | a failure reports a non-empty, whitespace-free rest of the input at which none of the nine parsers matches (the program itself reports nom's last error, `parse_comment`'s, so after a lone ';' that rest starts one character later) |
| Asm.TokenizeNeverYieldsShadowedOpcodes | src/assembler/mod.rs:276-291 | no token of a successful run is JMPF, JMPEQ, GTQ, LTQ, SET or IGL |
| Asm.TokenizeIgnoresLeadingWhitespace | src/assembler/mod.rs:272 | leading whitespace changes neither definedness nor the result |
| Asm.Assembler.Tokenize | src/assembler/mod.rs:271-294 | succeeds exactly when `TokenizeSpec` lexes the whole input, with its tokens and an empty rest; otherwise it reports the rest where lexing stopped |
| Asm.Assembler.TokenizeWith | src/assembler/mod.rs:276-291 | the loop yields the tokens of `LexFrom`, or the position where it fails |
| Asm.Assembler.CompileToken | src/assembler/mod.rs:88-176 | one pass of the loop gives the bytes and the next index of `CompileStep` |
| Asm.Assembler.Compile | src/assembler/mod.rs:83-183 | gives the bytes of `CompileFrom` when there are any, and otherwise the error "No tokens to compile" |
| Asm.CompileCommentsOnly | src/assembler/mod.rs:174-182 | a list of comments, empty or not, compiles to nothing, so `compile` fails |
| Asm.CompileRegisterRun | src/assembler/mod.rs:129-137 | consecutive registers give just their numbers, with no 0 byte between them |
| Asm.CompileOpRegisters | src/assembler/mod.rs:108-137 | an opcode other than LOAD followed by registers gives the table byte, then the register numbers |
| Asm.CompileAddExample | src/assembler/mod.rs:108-137 | "ADD $1 $2 $3" alone compiles to [2, 1, 2, 3] |
| Asm.CompileLoad | src/assembler/mod.rs:92-107 | LOAD r, v gives 1, r and the four bytes of v; both operand tokens are skipped |
| Asm.CompileDirective | src/assembler/mod.rs:154-166 | a directive and an integer give [1, 31] and the four bytes of v; four further tokens are skipped |
| Asm.CompileBareDirective | src/assembler/mod.rs:154-166 | a directive not followed by an integer gives nothing |
| Asm.CompileLabelsAndStrings | src/assembler/mod.rs:146-174 | a label declaration gives [2], a usage [3], a string 17, 31 and its UTF-8 bytes, and a comment nothing |
| Asm.CompileRegisterPadding | src/assembler/mod.rs:129-137 | a register followed by a token that is not a register gives its number and then a 0 byte; a register that ends the list gives its number alone |
| Asm.CompileOp | src/assembler/mod.rs:108-128 | every opcode but LOAD gives its table byte alone, whatever follows |
| Asm.CompileInteger | src/assembler/mod.rs:138-141 | an integer outside LOAD and directives gives the four bytes of its value |
| Asm.CompileFloat | src/assembler/mod.rs:142-145 | a float gives the one byte of its `as u8` cast |
| Asm.CompileAddHltExample | src/assembler/mod.rs:108-137 | "ADD $1 $2 $3 HLT" compiles to [2, 1, 2, 3, 0, 0]: the last register before HLT gets a 0 byte |
| Asm.InstructionsFromNonEmpty | src/assembler/mod.rs:184-269 | grouping yields records exactly when the list has an `Op` token |
| Asm.InstructionsWellShaped | src/assembler/mod.rs:191-243 | every record has an `Op` token, no label and no directive; LOAD has a register and an integer-or-float operand; other opcodes have three registers |
| Asm.Assembler.ToAsmInstructions | src/assembler/mod.rs:184-269 | gives the records of `InstructionsFrom` exactly when an `Op` token occurs, and otherwise "No tokens to compile" |
| Asm.LabelSymbolsAppend | src/assembler/mod.rs:56-82 | collecting from a concatenation is the concatenation of the collected symbols, so the symbols are in token order |
| Asm.LabelSymbolsShape | src/assembler/mod.rs:56-82 | every collected symbol names a label declaration of the list, has type `Integer` and no offset, and there are no more symbols than tokens |
| Asm.Assembler.ProcessFirstPhase | src/assembler/mod.rs:56-82 | appends `LabelSymbols(tokens)` to `symbols`; the program and the read-only section are unchanged |
| Asm.Assembler.constructor | src/assembler/mod.rs:43-49 | program, read-only section and symbols are empty |
| Asm.Assembler.Assemble | src/assembler/mod.rs:50-55 | after tokenizing, the result is always `Ok` of no bytes |
| Machine.Initial | src/vm.rs:12-20 | a new machine is well formed: 32 registers, and a program that fits `usize` |
| Machine.Step | src/vm.rs:48-183 | a step keeps the program and the machine's shape; it reports "not done" only for a LOAD that moved pc four places on |
| Machine.VM.constructor | src/vm.rs:12-20 | the new machine is `Initial()`: all registers 0, pc 0, no program, remainder 0, flag false |
| Machine.VM.DecodeOpcode | src/vm.rs:21-25 | gives the decoded byte at pc, and pc moves one place |
| Machine.VM.Next8Bits | src/vm.rs:26-30 | gives the byte at pc, and pc moves one place |
| Machine.VM.Next16Bits | src/vm.rs:31-35 | gives the two bytes at pc read big-endian, and pc moves two places |
| Machine.VM.AddByte | src/vm.rs:36-38 | appends exactly one byte to the program and changes nothing else |
| Machine.VM.ExecuteLoad | src/vm.rs:163-170 | the new state and result are those of `LoadStep` |
| Machine.VM.ExecuteArithmetic | src/vm.rs:131-162 | the new state and result are those of `ArithmeticStep` |
| Machine.VM.ExecuteCompare | src/vm.rs:61-120 | the new state is that of `CompareStep` |
| Machine.VM.ExecuteJump | src/vm.rs:54-130 | the new state is that of `JumpStep` |
| Machine.VM.ExecuteInstruction | src/vm.rs:48-183 | the result and new state are those of `Step` on the old state |
| Machine.VM.RunOnceWriteEverywhere | src/vm.rs:39-41 | the new state is that of one `Step` |
| Machine.VM.Run | src/vm.rs:42-47 | the final state is `RunFrom` of the initial state |
| MachineProperties.TruncDivRem | src/vm.rs:131-141 | Rust's truncating `/` and `%`: dividend = divisor * quotient + remainder, with abs(remainder) < abs(divisor) and the remainder carrying the dividend's sign |
| MachineProperties.DivOverflow | src/vm.rs:131-141 | among non-zero divisors, only MIN / -1 leaves the `i32` range |
| MachineProperties.StepDispatch | src/vm.rs:48-183 | at or past the end of the program, nothing changes and the result is "done"; HLT moves pc one place; each opcode class goes to its arm; IGL and LABEL fall into the catch-all arm, whose second `decode_opcode` moves pc two places, or panics at the last byte |
| MachineProperties.LoadEffect | src/vm.rs:163-170 | LOAD is defined exactly when three operand bytes exist and the register is below 32; it stores hi * 256 + lo (0..=65535), leaves every other register and field as it was, moves pc four places, and is "not done" |
| MachineProperties.ArithmeticDefined | src/vm.rs:131-162 | ADD, SUB, MUL and DIV are defined exactly when their three register bytes exist, the divisor is not zero for DIV, and the result fits `i32` |
| MachineProperties.ArithmeticResult | src/vm.rs:131-162 | the destination register gets the value; the other registers, the flag and the program are unchanged; pc moves four places and the result is "done"; the remainder changes only for DIV |
| MachineProperties.DivEffect | src/vm.rs:131-141 | DIV panics exactly for a zero divisor or MIN / -1; the remainder becomes the truncating remainder modulo 2^32 |
| MachineProperties.CompareEffect | src/vm.rs:61-120 | the comparisons are defined exactly when both register bytes and a third byte exist; the flag becomes exactly the comparison; registers are unchanged; pc moves four places |
| MachineProperties.JumpEffect | src/vm.rs:54-130 | JMP sets pc to the register as a `usize`; JMPF sets it to pc + 2 + that value, and panics past `usize`; JMPEQ sets it to the register when the flag is set, and otherwise to pc + 2; registers and flag are unchanged |
| MachineProperties.NegativeJumpStops | src/vm.rs:126-130 | a JMP to a negative register value lands past the program, so the next step stops |
| MachineProperties.RunKeepsProgram | src/vm.rs:42-47 | `run` keeps the program and the machine's shape |
| MachineProperties.RunUnfolds | src/vm.rs:42-47 | `run` goes on after a LOAD, and stops after any other step |
| MachineProperties.NewMachineExample | src/vm.rs:191-194 | a new machine has zero registers, and `run` with no program stops at once |
| MachineProperties.HaltProgramExample | src/vm.rs:171-174 | [0, 0, 0, 0] halts with pc 1 |
| MachineProperties.AddProgramExample | src/vm.rs:197-203 | the program of `test_opcode_hlt` is an ADD: `run` stops with pc 4 |
| MachineProperties.DivByZeroExample | src/vm.rs:206-212 | the program of `test_unrecognized` divides by zero and panics |
| MachineProperties.LoadProgramExample | src/vm.rs:214-221 | the program of `test_load_opcode` leaves r0 = 256 at the end |
| MachineProperties.AluDivides | src/vm.rs:131-141 | the last instruction of the `test_alu` program, DIV r0, r1, r0 with r0 = 100 and r1 = 286, stores the quotient 0 in r0 and the remainder 100, and `run` then stops |
| MachineProperties.AluProgramExample | src/vm.rs:224-232 | the program of `test_alu` leaves r0 = 0, r1 = 286, remainder 100 and pc 12 |
| MachineProperties.JmpProgramExample | src/vm.rs:235-243 | JMP r0 with r0 = 1 sets pc to 1 |
| MachineProperties.JmpeqProgramExample | src/vm.rs:246-255 | with the flag set and r0 = 2, one step of the program of `test_jmpeq` (JMPEQ r0) sets pc to 2 |
| Repl.Split | src/repl/mod.rs:25 | splitting always gives at least one piece, and no piece contains the separator |
| Repl.JoinSplit | src/repl/mod.rs:25 | joining the pieces with the separator gives the input back |
| Repl.SplitJoin | src/repl/mod.rs:25 | pieces free of the separator are exactly what splitting their join gives |
| Repl.SplitUpper | src/repl/mod.rs:25 | for a separator that is not a letter, splitting the upper-cased input gives the upper-cased pieces |
| Repl.ParsePiecesOk | src/repl/mod.rs:27-38 | parsing succeeds exactly when every piece parses, giving one byte per piece in order |
| Repl.ParsePiecesFirstError | src/repl/mod.rs:32-34 | the error is that of the first failing piece, whatever follows it |
| Repl.ParseHex | src/repl/mod.rs:24-39 | the loop returns `ParseHexSpec(input)`: the first piece's error, or every piece's byte, as `ParseHexPieces` states |
| Repl.ParseHexPieces | src/repl/mod.rs:25-38 | `parse_hex` succeeds exactly when every space-separated piece is a base-16 `u8`, and then gives each piece's value in order |
| Repl.EmptyPieceFails | src/repl/mod.rs:25-34 | an empty piece makes the whole line fail |
| Repl.ParseHexUpper | src/repl/mod.rs:28 | upper-case and lower-case hex digits parse alike |
| Repl.HexByteParses | src/repl/mod.rs:28 | a byte written as two hex digits parses back to itself |
| Repl.FormatHexRoundTrip | src/repl/mod.rs:24-39 | every non-empty byte string written as space-separated hex pairs parses back to itself |
| Repl.EmptyInputExample | src/repl/mod.rs:25-34 | the empty line fails with `Empty` |
| Repl.DoubledSpaceExample | src/repl/mod.rs:25-34 | "0a  1f" fails with `Empty` |
| Repl.OverflowExample | src/repl/mod.rs:28-34 | "ff 100" fails with `PosOverflow` |
| Repl.PlusSignExample | src/repl/mod.rs:28-31 | "+ff" gives [255] |

## Left out

- `REPL::run` and `main`: stdin and stdout plumbing and `process::exit`. The REPL's other fields are left out with them, since `parse_hex` reads none of them.
- `Assembler::new` of the lexer draft: it reads a file. The lexer is built from a string, as the draft's tests build it.
- Floats:
  - the lexer draft keeps a float lexeme's text and does not compute its `f64`;
  - the tokenizer takes nom's `float` parser as a parameter (`FloatLexerOk`), since its grammar belongs to nom;
  - `compile` takes the `f32 as u8` cast as a parameter `floatByte`.
- nom's error values: a parser's failure is `NoMatch`, and `tokenize`'s error is the rest of the input. nom's error kinds are not modelled.
- Asm.Assembler.Tokenize: its error is the rest of the input where lexing stopped, not the input nom's `alt` reports. nom reports the last alternative's error, `parse_comment`'s, so after a ';' at the end of the input or before a '\n' the program's error rest starts one character later.
- Asm.TokenizeErrorPosition: states the error position of the model, with the same difference from nom's error input.
- Unicode: `is_alphanumeric` and the letter classes are restricted to ASCII, and so are upper- and lower-casing. `is_whitespace` is the full Unicode White_Space list.
- Panics are not modelled as behaviour. A panicking operation is `None` in its specification function, and the method that models it requires that this does not happen:
  - `parse_register`'s and `parse_integer`'s `unwrap`;
  - `next_token` on a character that starts no token;
  - out-of-range reads;
  - register indices of 32 or more;
  - division by zero;
  - `i32` overflow, which is a panic in a debug build and is not wrap-around;
  - `pc` arithmetic past `usize`.
- `println!` logging everywhere.
- `parse_data`. It is unused, and its `unwrap` panics on every input.
- The `content` field of the lexer draft is kept and set by the constructor, but no method reads it.
- `usize` is 64 bits wide.
- There is no heap, and nothing executes ALLOC, SQUARE or SET: the VM has no such behaviour.
- LOAD's end-to-end behaviour: the assembler writes a 4-byte immediate and the VM reads 2 bytes from it, so no compile-then-run property is stated.
- The vm.rs unit tests: their expected values are not used. The example lemmas state what the code computes on the same programs.
- `Assembler.symbols` is a sequence of symbols, because symbol_table.rs defines no `SymbolTable` type, and `to_bytes` never reads it.
- Proof helpers: `execute_instruction`'s arms are the methods `ExecuteLoad`, `ExecuteArithmetic`, `ExecuteCompare` and `ExecuteJump`, and `compile`'s loop body is `CompileToken`. `TokenizeWith` is `tokenize`'s loop for any lexing step, and `ScanNumber` and `ScanIdentifier` are the loops of `read_number` and `read_identifier`. Each keeps the source's statements in order.
- `str::split` is `Split`, a function. `parse_hex`'s loop runs over its result, so collecting the split into a `Vec` is not modelled separately.
- src/assembler/mod copy.rs is not part of this model: it is an older copy of the assembler.
