/**
 * The assembler of `assembler/mod.rs`: the tokenizer loop, the token-to-byte
 * encoder, grouping into `AsmInstruction`s and the first (label-collecting) phase.
 */
module Asm {
  import opened Wrappers
  import opened Instruction
  import opened Tokens
  import opened Chars
  import opened Helpers
  import opened Parsers
  import opened SymbolTable
  import opened AsmInstructions

  // ---------------------------------------------------------------- tokenize

  /**
   * nom's `float` parser is not part of this model; `tokenize` receives it as a
   * parameter that, when it matches, consumes input and yields a `FloatOperand`.
   */
  ghost predicate FloatLexerOk(floatLexer: string -> ParseResult) {
    forall s :: Consumes(s, floatLexer(s)) && (floatLexer(s).Match? ==> floatLexer(s).token.FloatOperand?)
  }

  /** Neither `parse_register` nor `parse_integer` would panic on this input. */
  predicate LiteralsFit(input: string) {
    RegisterFits(input) && IntegerFits(input)
  }

  /** The `alt` of `tokenize`: the first of the nine parsers that matches, in their fixed order. */
  function LexOne(input: string, floatLexer: string -> ParseResult): (r: ParseResult)
    requires LiteralsFit(input)
    ensures FloatLexerOk(floatLexer) ==> Consumes(input, r)
    ensures r.Match? && r.token.Op? && FloatLexerOk(floatLexer) ==> r == ParseOpcode(input)
  {
    var opcode := ParseOpcode(input);
    if opcode.Match? then opcode else
    var register := ParseRegister(input);
    if register.Match? then register else
    var integer := ParseInteger(input);
    if integer.Match? then integer else
    var float := floatLexer(input);
    if float.Match? then float else
    var declaration := ParseLabelDeclaration(input);
    if declaration.Match? then declaration else
    var usage := ParseLabelUsage(input);
    if usage.Match? then usage else
    var directive := ParseDirective(input);
    if directive.Match? then directive else
    var str := ParseString(input);
    if str.Match? then str else
    ParseComment(input)
  }

  /** The lexing step, with `NoMatch` standing in where `LexOne` would panic (see `TokenizeDefined`). */
  function Lexer(floatLexer: string -> ParseResult): string -> ParseResult {
    s => if LiteralsFit(s) then LexOne(s, floatLexer) else NoMatch
  }

  /** A lexing step that consumes input whenever it matches. */
  ghost predicate Consuming(lex: string -> ParseResult) {
    forall s :: Consumes(s, lex(s))
  }

  lemma LexerConsuming(floatLexer: string -> ParseResult)
    requires FloatLexerOk(floatLexer)
    ensures Consuming(Lexer(floatLexer))
  {
    var lex := Lexer(floatLexer);
    forall s
      ensures Consumes(s, lex(s))
    {
      if LiteralsFit(s) {
        var r := LexOne(s, floatLexer);
        assert lex(s) == r;
      }
    }
  }

  /** `a` is a (not necessarily proper) suffix of `b`. */
  predicate IsSuffix(a: string, b: string) {
    |a| <= |b| && a == b[|b| - |a|..]
  }

  lemma SuffixTrans(a: string, b: string, c: string)
    requires IsSuffix(a, b) && IsSuffix(b, c)
    ensures IsSuffix(a, c)
  {
    assert b[|b| - |a|..] == c[|c| - |a|..];
  }

  /** `multispace0`: drops leading spaces, tabs, carriage returns and newlines. */
  function SkipMultispace(s: string): (r: string)
    ensures IsSuffix(r, s)
    ensures r == [] || !IsMultispace(r[0])
    ensures forall i :: 0 <= i < |s| - |r| ==> IsMultispace(s[i])
  {
    s[Span(s, IsMultispace)..]
  }

  datatype Lexed = Lexed(tokens: seq<Token>) | LexError(rest: string)

  /** The tokens of `remaining` (already past whitespace), or the input left where the step found no match. */
  ghost function LexFrom(remaining: string, lex: string -> ParseResult): Lexed
    requires Consuming(lex)
    decreases |remaining|
  {
    if remaining == [] then Lexed([])
    else match lex(remaining)
      case NoMatch => LexError(remaining)
      case Match(rest, token) => Prepend([token], LexFrom(SkipMultispace(rest), lex))
  }

  function Prepend(tokens: seq<Token>, l: Lexed): Lexed {
    match l
    case Lexed(more) => Lexed(tokens + more)
    case LexError(rest) => LexError(rest)
  }

  lemma PrependTwice(a: seq<Token>, b: seq<Token>, l: Lexed)
    ensures Prepend(a, Prepend(b, l)) == Prepend(a + b, l)
  {
    if l.Lexed? {
      assert a + (b + l.tokens) == (a + b) + l.tokens;
    }
  }

  /** `fits` holds at every position the tokenizer reaches from `remaining`. */
  ghost predicate LexReachesOnly(remaining: string, lex: string -> ParseResult, fits: string -> bool)
    requires Consuming(lex)
    decreases |remaining|
  {
    remaining == [] ||
    (fits(remaining) && (lex(remaining).Match? ==> LexReachesOnly(SkipMultispace(lex(remaining).rest), lex, fits)))
  }

  /** One step of `LexFrom` on a non-empty rest of the input. */
  lemma LexFromUnfold(remaining: string, lex: string -> ParseResult, fits: string -> bool)
    requires Consuming(lex) && LexReachesOnly(remaining, lex, fits) && remaining != []
    ensures lex(remaining).NoMatch? ==> LexFrom(remaining, lex) == LexError(remaining)
    ensures lex(remaining).Match? ==>
      LexReachesOnly(SkipMultispace(lex(remaining).rest), lex, fits) &&
      LexFrom(remaining, lex) == Prepend([lex(remaining).token], LexFrom(SkipMultispace(lex(remaining).rest), lex))
  {
  }

  /** What `tokenize` does with a whole input. */
  ghost function TokenizeSpec(input: string, floatLexer: string -> ParseResult): Lexed
    requires FloatLexerOk(floatLexer)
  {
    LexerConsuming(floatLexer);
    LexFrom(SkipMultispace(input), Lexer(floatLexer))
  }

  /** No parser panics anywhere `tokenize` gets to on `input`. */
  ghost predicate TokenizeDefined(input: string, floatLexer: string -> ParseResult) {
    FloatLexerOk(floatLexer) &&
    (LexerConsuming(floatLexer); LexReachesOnly(SkipMultispace(input), Lexer(floatLexer), LiteralsFit))
  }

  /** A failure reports a non-empty, whitespace-free rest of the input at which the step finds no match. */
  lemma {:induction false} LexErrorPosition(remaining: string, lex: string -> ParseResult, fits: string -> bool)
    requires Consuming(lex) && LexReachesOnly(remaining, lex, fits)
    requires remaining == [] || !IsMultispace(remaining[0])
    ensures var l := LexFrom(remaining, lex);
      l.LexError? ==> (|l.rest| > 0 && IsSuffix(l.rest, remaining)
        && !IsMultispace(l.rest[0]) && fits(l.rest) && lex(l.rest).NoMatch?)
  {
    if remaining != [] {
      match lex(remaining)
      case NoMatch =>
      case Match(rest, token) =>
        LexErrorPosition(SkipMultispace(rest), lex, fits);
        var l := LexFrom(SkipMultispace(rest), lex);
        if l.LexError? {
          SuffixTrans(l.rest, SkipMultispace(rest), rest);
          SuffixTrans(l.rest, rest, remaining);
        }
    }
  }

  /** `tokenize` fails only at a non-empty, whitespace-free rest of the input where none of the nine parsers matches. */
  lemma TokenizeErrorPosition(input: string, floatLexer: string -> ParseResult)
    requires TokenizeDefined(input, floatLexer)
    ensures var l := TokenizeSpec(input, floatLexer);
      l.LexError? ==> (|l.rest| > 0 && IsSuffix(l.rest, input)
        && !IsMultispace(l.rest[0]) && LiteralsFit(l.rest) && LexOne(l.rest, floatLexer).NoMatch?)
  {
    LexerConsuming(floatLexer);
    LexErrorPosition(SkipMultispace(input), Lexer(floatLexer), LiteralsFit);
    var l := TokenizeSpec(input, floatLexer);
    if l.LexError? {
      SuffixTrans(l.rest, SkipMultispace(input), input);
      assert Lexer(floatLexer)(l.rest) == LexOne(l.rest, floatLexer);
    }
  }

  /** `P` holds of every token in `tokens`. */
  ghost predicate AllHave(tokens: seq<Token>, P: Token -> bool) {
    forall i :: 0 <= i < |tokens| ==> P(tokens[i])
  }

  lemma AllHaveCons(t: Token, tokens: seq<Token>, P: Token -> bool)
    requires P(t) && AllHave(tokens, P)
    ensures AllHave([t] + tokens, P)
  {
    assert forall i :: 1 <= i < |[t] + tokens| ==> ([t] + tokens)[i] == tokens[i - 1];
  }

  /** A property of every token the step yields at a reachable position holds of every token of the result. */
  lemma {:induction false} LexTokensHave(remaining: string, lex: string -> ParseResult, fits: string -> bool, P: Token -> bool)
    requires Consuming(lex) && LexReachesOnly(remaining, lex, fits)
    requires forall s :: fits(s) && lex(s).Match? ==> P(lex(s).token)
    ensures var l := LexFrom(remaining, lex);
      l.Lexed? ==> AllHave(l.tokens, P)
  {
    if remaining != [] {
      match lex(remaining)
      case NoMatch =>
      case Match(rest, token) =>
        LexTokensHave(SkipMultispace(rest), lex, fits, P);
        var l := LexFrom(SkipMultispace(rest), lex);
        if l.Lexed? {
          AllHaveCons(token, l.tokens, P);
        }
    }
  }

  /** An opcode `parse_opcode` can yield: not shadowed by a shorter mnemonic listed earlier, and listed at all. */
  predicate NotShadowed(t: Token) {
    t.Op? ==> t.code !in {JMPF, JMPEQ, GTQ, LTQ, SET, IGL}
  }

  /** Op tokens other than those `parse_opcode` can produce never appear in the tokenizer's output. */
  lemma TokenizeNeverYieldsShadowedOpcodes(input: string, floatLexer: string -> ParseResult)
    requires TokenizeDefined(input, floatLexer)
    ensures var l := TokenizeSpec(input, floatLexer);
      l.Lexed? ==> forall i :: 0 <= i < |l.tokens| ==> NotShadowed(l.tokens[i])
  {
    LexerConsuming(floatLexer);
    var lex := Lexer(floatLexer);
    forall s | LiteralsFit(s) && lex(s).Match?
      ensures NotShadowed(lex(s).token)
    {
      assert lex(s) == LexOne(s, floatLexer);
      ParseOpcodeNeverYields(s);
    }
    LexTokensHave(SkipMultispace(input), lex, LiteralsFit, NotShadowed);
  }

  lemma {:induction false} SpanSkipsPrefix(ws: string, s: string, p: char -> bool)
    requires forall i :: 0 <= i < |ws| ==> p(ws[i])
    ensures Span(ws + s, p) == |ws| + Span(s, p)
  {
    if ws != [] {
      assert (ws + s)[0] == ws[0];
      assert (ws + s)[1..] == ws[1..] + s;
      SpanSkipsPrefix(ws[1..], s, p);
    } else {
      assert ws + s == s;
    }
  }

  /** Leading whitespace does not change what `tokenize` produces. */
  lemma TokenizeIgnoresLeadingWhitespace(ws: string, s: string, floatLexer: string -> ParseResult)
    requires forall i :: 0 <= i < |ws| ==> IsMultispace(ws[i])
    ensures SkipMultispace(ws + s) == SkipMultispace(s)
    ensures TokenizeDefined(s, floatLexer) ==> TokenizeDefined(ws + s, floatLexer)
    ensures FloatLexerOk(floatLexer) ==> TokenizeSpec(ws + s, floatLexer) == TokenizeSpec(s, floatLexer)
  {
    SpanSkipsPrefix(ws, s, IsMultispace);
    assert (ws + s)[|ws|..] == s;
  }

  // ----------------------------------------------------------------- compile

  /** The bytes one pass of the `compile` loop appends at `index`, and the index it moves on to. */
  function CompileStep(tokens: seq<Token>, index: nat, floatByte: Float -> u8): (r: (seq<u8>, nat))
    requires index < |tokens|
    ensures r.1 > index
  {
    match tokens[index]
    case Op(LOAD) =>
      ([OpcodeByte(LOAD)]
       + (if index + 1 < |tokens| && tokens[index + 1].Register? then [tokens[index + 1].regNum] else [])
       + (if index + 2 < |tokens| && tokens[index + 2].IntegerOperand? then ParseI32ToBytes(tokens[index + 2].value) else []),
       index + 3)
    case Op(code) => ([OpcodeByte(code)], index + 1)
    case Register(n) => (if index + 1 < |tokens| && !tokens[index + 1].Register? then [n, 0] else [n], index + 1)
    case IntegerOperand(v) => (ParseI32ToBytes(v), index + 1)
    case FloatOperand(f) => ([floatByte(f)], index + 1)
    case LabelDeclaration(_) => ([2], index + 1)
    case LabelUsage(_) => ([3], index + 1)
    case Directive(_) =>
      if index + 1 < |tokens| && tokens[index + 1].IntegerOperand? then
        var bytes := ParseI32ToBytes(tokens[index + 1].value);
        // the index moves past 1 + |bytes| further tokens, then the usual 1
        ([1, 31] + bytes, index + 1 + |bytes| + 1)
      else ([], index + 1)
    case IrString(name) => ([17, 31] + Utf8(name), index + 1)
    case Comment => ([], index + 1)
  }

  /** The bytes the `compile` loop appends from token `index` on. */
  function CompileFrom(tokens: seq<Token>, index: nat, floatByte: Float -> u8): seq<u8>
    decreases |tokens| - index
  {
    if index >= |tokens| then []
    else
      var step := CompileStep(tokens, index, floatByte);
      step.0 + CompileFrom(tokens, step.1, floatByte)
  }

  /** One step looks at no token before `index`, so a prefix only shifts the index. */
  lemma CompileStepShift(p: seq<Token>, q: seq<Token>, index: nat, floatByte: Float -> u8)
    requires index < |q|
    ensures var step := CompileStep(q, index, floatByte);
      CompileStep(p + q, |p| + index, floatByte) == (step.0, |p| + step.1)
  {
    var t := p + q;
    assert t[|p| + index] == q[index];
    assert |p| + index + 1 < |t| ==> t[|p| + index + 1] == q[index + 1];
    assert |p| + index + 2 < |t| ==> t[|p| + index + 2] == q[index + 2];
  }

  /** Encoding from an index never looks before it, so a prefix can be dropped. */
  lemma {:induction false} CompileFromShift(p: seq<Token>, q: seq<Token>, index: nat, floatByte: Float -> u8)
    ensures CompileFrom(p + q, |p| + index, floatByte) == CompileFrom(q, index, floatByte)
    decreases |q| - index
  {
    if index < |q| {
      CompileStepShift(p, q, index, floatByte);
      CompileFromShift(p, q, CompileStep(q, index, floatByte).1, floatByte);
    }
  }

  /** A list of comments, empty or not, encodes to no bytes at all. */
  lemma {:induction false} CompileCommentsOnly(tokens: seq<Token>, index: nat, floatByte: Float -> u8)
    requires forall i :: 0 <= i < |tokens| ==> tokens[i] == Comment
    ensures CompileFrom(tokens, index, floatByte) == []
    decreases |tokens| - index
  {
    if index < |tokens| {
      CompileCommentsOnly(tokens, index + 1, floatByte);
    }
  }

  /** A run of registers: each one its byte, with no 0 byte between consecutive registers. */
  lemma {:induction false} CompileRegisterRun(tokens: seq<Token>, index: nat, floatByte: Float -> u8)
    requires index <= |tokens|
    requires forall i :: index <= i < |tokens| ==> tokens[i].Register?
    ensures |CompileFrom(tokens, index, floatByte)| == |tokens| - index
    ensures forall k :: 0 <= k < |tokens| - index ==> CompileFrom(tokens, index, floatByte)[k] == tokens[index + k].regNum
    decreases |tokens| - index
  {
    if index < |tokens| {
      CompileRegisterRun(tokens, index + 1, floatByte);
      var rest := CompileFrom(tokens, index + 1, floatByte);
      assert CompileStep(tokens, index, floatByte) == ([tokens[index].regNum], index + 1);
      assert CompileFrom(tokens, index, floatByte) == [tokens[index].regNum] + rest;
    }
  }

  /** An opcode other than LOAD followed by registers only: the table byte, then the register numbers. */
  lemma CompileOpRegisters(code: Opcode, regs: seq<u8>, floatByte: Float -> u8)
    requires code != LOAD
    ensures CompileFrom([Op(code)] + seq(|regs|, i requires 0 <= i < |regs| => Register(regs[i])), 0, floatByte)
      == [OpcodeByte(code)] + regs
  {
    var tokens := [Op(code)] + seq(|regs|, i requires 0 <= i < |regs| => Register(regs[i]));
    CompileRegisterRun(tokens, 1, floatByte);
    assert CompileFrom(tokens, 1, floatByte) == regs;
    assert CompileStep(tokens, 0, floatByte) == ([OpcodeByte(code)], 1);
  }

  /** "ADD $1 $2 $3" alone compiles to [2, 1, 2, 3]. */
  lemma CompileAddExample(floatByte: Float -> u8)
    ensures CompileFrom([Op(ADD), Register(1), Register(2), Register(3)], 0, floatByte) == [2, 1, 2, 3]
  {
    CompileOpRegisters(ADD, [1, 2, 3], floatByte);
    assert [Op(ADD)] + seq(3, i requires 0 <= i < 3 => Register([1, 2, 3][i])) == [Op(ADD), Register(1), Register(2), Register(3)];
  }

  /** LOAD with a register and an integer: 1, the register, the four immediate bytes; both operands are skipped. */
  lemma CompileLoad(r: u8, v: i32, rest: seq<Token>, floatByte: Float -> u8)
    ensures CompileFrom([Op(LOAD), Register(r), IntegerOperand(v)] + rest, 0, floatByte)
      == [1, r] + ParseI32ToBytes(v) + CompileFrom(rest, 0, floatByte)
  {
    CompileFromShift([Op(LOAD), Register(r), IntegerOperand(v)], rest, 0, floatByte);
  }

  /**
   * A directive followed by an integer: [1, 31] and the four immediate bytes; the
   * index then moves six places, so the four tokens after the integer are skipped.
   */
  lemma CompileDirective(name: string, v: i32, skipped: seq<Token>, rest: seq<Token>, floatByte: Float -> u8)
    requires |skipped| == 4
    ensures CompileFrom([Directive(name), IntegerOperand(v)] + skipped + rest, 0, floatByte)
      == [1, 31] + ParseI32ToBytes(v) + CompileFrom(rest, 0, floatByte)
  {
    var p := [Directive(name), IntegerOperand(v)] + skipped;
    assert [Directive(name), IntegerOperand(v)] + skipped + rest == p + rest;
    CompileFromShift(p, rest, 0, floatByte);
  }

  /** A directive not followed by an integer adds nothing. */
  lemma CompileBareDirective(name: string, rest: seq<Token>, floatByte: Float -> u8)
    requires rest == [] || !rest[0].IntegerOperand?
    ensures CompileFrom([Directive(name)] + rest, 0, floatByte) == CompileFrom(rest, 0, floatByte)
  {
    CompileFromShift([Directive(name)], rest, 0, floatByte);
  }

  /** Label declarations and usages are placeholders 2 and 3; a string is 17, 31 and its UTF-8 bytes. */
  lemma CompileLabelsAndStrings(t: Token, rest: seq<Token>, floatByte: Float -> u8)
    requires t.LabelDeclaration? || t.LabelUsage? || t.IrString? || t.Comment?
    ensures CompileFrom([t] + rest, 0, floatByte) == (match t
      case LabelDeclaration(_) => [2]
      case LabelUsage(_) => [3]
      case IrString(s) => [17, 31] + Utf8(s)
      case _ => []) + CompileFrom(rest, 0, floatByte)
  {
    CompileFromShift([t], rest, 0, floatByte);
  }

  /**
   * A register followed by a token that is not a register: its number, then a 0 byte;
   * a register that ends the list is its number alone.
   */
  lemma CompileRegisterPadding(r: u8, t: Token, rest: seq<Token>, floatByte: Float -> u8)
    requires !t.Register?
    ensures CompileFrom([Register(r), t] + rest, 0, floatByte) == [r, 0] + CompileFrom([t] + rest, 0, floatByte)
    ensures CompileFrom([Register(r)], 0, floatByte) == [r]
  {
    assert [Register(r), t] + rest == [Register(r)] + ([t] + rest);
    CompileFromShift([Register(r)], [t] + rest, 0, floatByte);
  }

  /** Every opcode but LOAD is its table byte alone, whatever follows it. */
  lemma CompileOp(code: Opcode, rest: seq<Token>, floatByte: Float -> u8)
    requires code != LOAD
    ensures CompileFrom([Op(code)] + rest, 0, floatByte) == [OpcodeByte(code)] + CompileFrom(rest, 0, floatByte)
  {
    CompileFromShift([Op(code)], rest, 0, floatByte);
  }

  /** An integer that is not an operand of LOAD or a directive is its four immediate bytes. */
  lemma CompileInteger(v: i32, rest: seq<Token>, floatByte: Float -> u8)
    ensures CompileFrom([IntegerOperand(v)] + rest, 0, floatByte) == ParseI32ToBytes(v) + CompileFrom(rest, 0, floatByte)
  {
    CompileFromShift([IntegerOperand(v)], rest, 0, floatByte);
  }

  /** A float is the one byte of its `as u8` cast. */
  lemma CompileFloat(f: Float, rest: seq<Token>, floatByte: Float -> u8)
    ensures CompileFrom([FloatOperand(f)] + rest, 0, floatByte) == [floatByte(f)] + CompileFrom(rest, 0, floatByte)
  {
    CompileFromShift([FloatOperand(f)], rest, 0, floatByte);
  }

  /** "ADD $1 $2 $3 HLT": the last register before HLT gets a 0 byte, so [2, 1, 2, 3, 0, 0]. */
  lemma CompileAddHltExample(floatByte: Float -> u8)
    ensures CompileFrom([Op(ADD), Register(1), Register(2), Register(3), Op(HLT)], 0, floatByte) == [2, 1, 2, 3, 0, 0]
  {
    var tokens := [Op(ADD), Register(1), Register(2), Register(3), Op(HLT)];
    CompileOp(HLT, [], floatByte);
    CompileRegisterPadding(3, Op(HLT), [], floatByte);
    assert tokens == [Op(ADD), Register(1), Register(2)] + ([Register(3), Op(HLT)] + []);
    CompileFromShift([Op(ADD), Register(1), Register(2)], [Register(3), Op(HLT)], 0, floatByte);
    assert CompileStep(tokens, 0, floatByte) == ([2], 1);
    assert CompileStep(tokens, 1, floatByte) == ([1], 2);
    assert CompileStep(tokens, 2, floatByte) == ([2], 3);
  }

  // ----------------------------------------------------- to_asm_instructions

  /** The LOAD record: a register and an integer or float, read only when both tokens exist. */
  function LoadInstruction(tokens: seq<Token>, index: nat): (instr: AsmInstruction)
    requires index < |tokens|
  {
    var enough := index + 2 < |tokens|;
    AsmInstruction(
      Some(Op(LOAD)), None, None,
      if enough && tokens[index + 1].Register? then Some(tokens[index + 1]) else None,
      if enough && (tokens[index + 2].IntegerOperand? || tokens[index + 2].FloatOperand?) then Some(tokens[index + 2]) else None,
      None)
  }

  /** Any other opcode: three registers, read only when all three tokens exist. */
  function OtherInstruction(tokens: seq<Token>, index: nat, code: Opcode): (instr: AsmInstruction)
    requires index < |tokens|
  {
    var enough := index + 3 < |tokens|;
    AsmInstruction(
      Some(Op(code)), None, None,
      if enough && tokens[index + 1].Register? then Some(tokens[index + 1]) else None,
      if enough && tokens[index + 2].Register? then Some(tokens[index + 2]) else None,
      if enough && tokens[index + 3].Register? then Some(tokens[index + 3]) else None)
  }

  /** The records the `to_asm_instructions` loop pushes from token `index` on. */
  function InstructionsFrom(tokens: seq<Token>, index: nat): seq<AsmInstruction>
    decreases |tokens| - index
  {
    if index >= |tokens| then []
    else match tokens[index]
      case Op(LOAD) => [LoadInstruction(tokens, index)] + InstructionsFrom(tokens, index + 3)
      case Op(code) => [OtherInstruction(tokens, index, code)] + InstructionsFrom(tokens, index + 4)
      case _ => InstructionsFrom(tokens, index + 1)
  }

  /** Grouping yields something exactly when an `Op` token occurs (the first one is always visited). */
  lemma {:induction false} InstructionsFromNonEmpty(tokens: seq<Token>, index: nat)
    ensures InstructionsFrom(tokens, index) != [] <==> exists i :: index <= i < |tokens| && tokens[i].Op?
    decreases |tokens| - index
  {
    if index < |tokens| && !tokens[index].Op? {
      InstructionsFromNonEmpty(tokens, index + 1);
      assert (exists i :: index <= i < |tokens| && tokens[i].Op?) ==> exists i :: index + 1 <= i < |tokens| && tokens[i].Op?;
    }
  }

  /** The shape of a record `to_asm_instructions` builds. */
  predicate WellShaped(instr: AsmInstruction) {
    instr.opcode.Some? && instr.opcode.value.Op? && instr.labelToken.None? && instr.directive.None?
    && (if instr.opcode.value.code == LOAD then
          (instr.operand1.None? || instr.operand1.value.Register?)
          && (instr.operand2.None? || instr.operand2.value.IntegerOperand? || instr.operand2.value.FloatOperand?)
          && instr.operand3.None?
        else
          (instr.operand1.None? || instr.operand1.value.Register?)
          && (instr.operand2.None? || instr.operand2.value.Register?)
          && (instr.operand3.None? || instr.operand3.value.Register?))
  }

  /** Every record has an `Op` token, no label or directive, and operands of the kinds its opcode takes. */
  lemma {:induction false} InstructionsWellShaped(tokens: seq<Token>, index: nat)
    ensures forall k :: 0 <= k < |InstructionsFrom(tokens, index)| ==> WellShaped(InstructionsFrom(tokens, index)[k])
    decreases |tokens| - index
  {
    if index < |tokens| {
      match tokens[index]
      case Op(LOAD) => InstructionsWellShaped(tokens, index + 3);
      case Op(code) => InstructionsWellShaped(tokens, index + 4);
      case _ => InstructionsWellShaped(tokens, index + 1);
    }
  }

  // ------------------------------------------------------ process_first_phase

  /** The symbol one token contributes in the first phase. */
  function LabelSymbolOf(t: Token): seq<Symbol> {
    if t.LabelDeclaration? then [NewSymbol(t.name, SymbolType.Integer)] else []
  }

  /** All symbols the first phase collects from `tokens`, in order. */
  function LabelSymbols(tokens: seq<Token>): seq<Symbol> {
    if tokens == [] then [] else LabelSymbols(tokens[..|tokens| - 1]) + LabelSymbolOf(tokens[|tokens| - 1])
  }

  /** Collecting is compositional: one symbol per declaration, in token order. */
  lemma {:induction false} LabelSymbolsAppend(a: seq<Token>, b: seq<Token>)
    ensures LabelSymbols(a + b) == LabelSymbols(a) + LabelSymbols(b)
    decreases |b|
  {
    if b != [] {
      assert (a + b)[..|a + b| - 1] == a + b[..|b| - 1];
      assert (a + b)[|a + b| - 1] == b[|b| - 1];
      LabelSymbolsAppend(a, b[..|b| - 1]);
    } else {
      assert a + b == a;
    }
  }

  /** Each collected symbol names a declaration of the list, has type Integer and no offset. */
  lemma {:induction false} LabelSymbolsShape(tokens: seq<Token>)
    ensures |LabelSymbols(tokens)| <= |tokens|
    ensures forall k :: 0 <= k < |LabelSymbols(tokens)| ==>
      var s := LabelSymbols(tokens)[k];
      s.symbolType == SymbolType.Integer && s.offset == None && LabelDeclaration(s.name) in tokens
  {
    if tokens != [] {
      var front := tokens[..|tokens| - 1];
      LabelSymbolsShape(front);
      assert forall t :: t in front ==> t in tokens;
    }
  }

  lemma ConcatAssoc<T>(a: seq<T>, b: seq<T>, c: seq<T>)
    ensures (a + b) + c == a + (b + c)
  {
  }

  // --------------------------------------------------------------- Assembler

  class Assembler {
    var program: seq<u8>
    var ro: seq<u8>
    var symbols: seq<Symbol>

    /** `Assembler::new`. */
    constructor ()
      ensures program == [] && ro == [] && symbols == []
    {
      program, ro, symbols := [], [], [];
    }

    /** `process_first_phase`: appends one symbol per label declaration to `symbols`. */
    method ProcessFirstPhase(tokens: seq<Token>)
      modifies this
      ensures symbols == old(symbols) + LabelSymbols(tokens)
      ensures program == old(program) && ro == old(ro)
    {
      var index := 0;
      while index < |tokens|
        invariant index <= |tokens|
        invariant symbols == old(symbols) + LabelSymbols(tokens[..index])
        invariant program == old(program) && ro == old(ro)
      {
        assert tokens[..index + 1][..index] == tokens[..index];
        match tokens[index] {
        case LabelDeclaration(name) =>
          var symbol := NewSymbol(name, SymbolType.Integer);
          symbols := symbols + [symbol];
        case _ =>
        }
        index := index + 1;
      }
      assert tokens[..index] == tokens;
    }

    /** One pass of `compile`'s loop body: the bytes token `index` appends and the index after it. */
    method CompileToken(tokens: seq<Token>, index: nat, floatByte: Float -> u8) returns (bytes: seq<u8>, next: nat)
      requires index < |tokens|
      ensures (bytes, next) == CompileStep(tokens, index, floatByte)
    {
      next := index;
      bytes := [];
      match tokens[index] {
      case Op(code) =>
        if code == LOAD {
          var register: seq<u8> := [];
          if index + 1 < |tokens| {
            if tokens[index + 1].Register? {
              register := [tokens[index + 1].regNum];
            }
          }
          var immediate: seq<u8> := [];
          if index + 2 < |tokens| {
            if tokens[index + 2].IntegerOperand? {
              immediate := ParseI32ToBytes(tokens[index + 2].value);
            }
          }
          bytes := [1] + register + immediate;
          next := next + 2;
        } else {
          bytes := [OpcodeByte(code)];
        }
      case Register(n) =>
        bytes := [n];
        if index + 1 < |tokens| {
          if !tokens[index + 1].Register? {
            bytes := bytes + [0];
            assert bytes == [n, 0];
          }
        }
      case IntegerOperand(v) =>
        bytes := ParseI32ToBytes(v);
      case FloatOperand(f) =>
        bytes := [floatByte(f)];
      case LabelDeclaration(_) =>
        bytes := [2];
      case LabelUsage(_) =>
        bytes := [3];
      case Directive(_) =>
        if index + 1 < |tokens| {
          if tokens[index + 1].IntegerOperand? {
            var immediate := ParseI32ToBytes(tokens[index + 1].value);
            bytes := [1, 31] + immediate;
            next := next + 1 + |immediate|;
          }
        }
      case IrString(name) =>
        bytes := [17, 31] + Utf8(name);
      case Comment =>
      }
      next := next + 1;
    }

    /** `compile`: the bytes of all tokens, or the error when there are none. */
    method Compile(tokens: seq<Token>, floatByte: Float -> u8) returns (r: Result<seq<u8>, string>)
      ensures r.Ok? <==> CompileFrom(tokens, 0, floatByte) != []
      ensures r.Ok? ==> r.value == CompileFrom(tokens, 0, floatByte)
      ensures r.Err? ==> r.error == "No tokens to compile"
    {
      var index := 0;
      var result: seq<u8> := [];
      while index < |tokens|
        invariant result + CompileFrom(tokens, index, floatByte) == CompileFrom(tokens, 0, floatByte)
        decreases |tokens| - index
      {
        var bytes, next := CompileToken(tokens, index, floatByte);
        ConcatAssoc(result, bytes, CompileFrom(tokens, next, floatByte));
        result := result + bytes;
        index := next;
      }
      if result != [] {
        r := Ok(result);
      } else {
        r := Err("No tokens to compile");
      }
    }

    /** `to_asm_instructions`: the records, or the error when no opcode occurs. */
    method ToAsmInstructions(tokens: seq<Token>) returns (r: Result<seq<AsmInstruction>, string>)
      ensures r.Ok? <==> exists i :: 0 <= i < |tokens| && tokens[i].Op?
      ensures r.Ok? ==> r.value == InstructionsFrom(tokens, 0)
      ensures r.Err? ==> r.error == "No tokens to compile"
    {
      var index := 0;
      var result: seq<AsmInstruction> := [];
      while index < |tokens|
        invariant result + InstructionsFrom(tokens, index) == InstructionsFrom(tokens, 0)
        decreases |tokens| - index
      {
        match tokens[index] {
        case Op(code) =>
          if code == LOAD {
            var instr := AsmInstruction(Some(Op(LOAD)), None, None, None, None, None);
            if index + 2 < |tokens| {
              if tokens[index + 1].Register? {
                instr := instr.(operand1 := Some(Register(tokens[index + 1].regNum)));
              }
              if tokens[index + 2].IntegerOperand? {
                instr := instr.(operand2 := Some(IntegerOperand(tokens[index + 2].value)));
              }
              if tokens[index + 2].FloatOperand? {
                instr := instr.(operand2 := Some(FloatOperand(tokens[index + 2].float)));
              }
            }
            assert instr == LoadInstruction(tokens, index);
            ConcatAssoc(result, [instr], InstructionsFrom(tokens, index + 3));
            result := result + [instr];
            index := index + 2;
          } else {
            var instr := AsmInstruction(Some(Op(code)), None, None, None, None, None);
            if index + 3 < |tokens| {
              if tokens[index + 1].Register? {
                instr := instr.(operand1 := Some(Register(tokens[index + 1].regNum)));
              }
              if tokens[index + 2].Register? {
                instr := instr.(operand2 := Some(Register(tokens[index + 2].regNum)));
              }
              if tokens[index + 3].Register? {
                instr := instr.(operand3 := Some(Register(tokens[index + 3].regNum)));
              }
            }
            assert instr == OtherInstruction(tokens, index, code);
            ConcatAssoc(result, [instr], InstructionsFrom(tokens, index + 4));
            result := result + [instr];
            index := index + 3;
          }
        case _ =>
        }
        index := index + 1;
      }
      InstructionsFromNonEmpty(tokens, 0);
      if result != [] {
        r := Ok(result);
      } else {
        r := Err("No tokens to compile");
      }
    }

    /** `tokenize`: all tokens and the (empty) rest on success, else the rest where lexing stopped. */
    method Tokenize(input: string, floatLexer: string -> ParseResult) returns (r: Result<(string, seq<Token>), string>)
      requires TokenizeDefined(input, floatLexer)
      ensures r.Ok? <==> TokenizeSpec(input, floatLexer).Lexed?
      ensures r.Ok? ==> r.value == ("", TokenizeSpec(input, floatLexer).tokens)
      ensures r.Err? ==> r.error == TokenizeSpec(input, floatLexer).rest
    {
      LexerConsuming(floatLexer);
      r := TokenizeWith(input, Lexer(floatLexer), LiteralsFit);
    }

    /** The loop of `tokenize`, for any lexing step that consumes input. */
    method TokenizeWith(input: string, lex: string -> ParseResult, ghost fits: string -> bool) returns (r: Result<(string, seq<Token>), string>)
      requires Consuming(lex) && LexReachesOnly(SkipMultispace(input), lex, fits)
      ensures r.Ok? <==> LexFrom(SkipMultispace(input), lex).Lexed?
      ensures r.Ok? ==> r.value == ("", LexFrom(SkipMultispace(input), lex).tokens)
      ensures r.Err? ==> r.error == LexFrom(SkipMultispace(input), lex).rest
    {
      var remaining := SkipMultispace(input);
      ghost var spec := LexFrom(remaining, lex);
      var tokens: seq<Token> := [];
      while remaining != []
        invariant LexReachesOnly(remaining, lex, fits)
        invariant Prepend(tokens, LexFrom(remaining, lex)) == spec
        decreases |remaining|
      {
        var next := lex(remaining);
        LexFromUnfold(remaining, lex, fits);
        if next.NoMatch? {
          return Err(remaining);
        }
        PrependTwice(tokens, [next.token], LexFrom(SkipMultispace(next.rest), lex));
        tokens := tokens + [next.token];
        remaining := SkipMultispace(next.rest);
      }
      assert tokens + [] == tokens;
      r := Ok((remaining, tokens));
    }

    /** `assemble`: tokenizes (its `unwrap` panics on a lexing error) and returns no bytes. */
    method Assemble(raw: string, floatLexer: string -> ParseResult) returns (r: Result<seq<u8>, string>)
      requires TokenizeDefined(raw, floatLexer)
      requires TokenizeSpec(raw, floatLexer).Lexed?
      ensures r == Ok([])
    {
      var tokens := Tokenize(raw, floatLexer);
      r := Ok([]);
    }
  }
}
