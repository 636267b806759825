/**
 * The hand-written cursor lexer draft: a `position` over the input's characters,
 * advanced by `peek`/`advance` inside the `read_*` loops, one token per
 * `next_token` call.
 *
 * Each method is proved against a function of the characters and the starting
 * position (`SkipWhitespaceEnd`, `ReadNumberSpec`, ...), and the properties the
 * lexer promises are lemmas about those functions.
 */
module DraftLexer {
  import opened Wrappers
  import opened Instruction
  import opened Chars
  import opened IntParse

  /** The draft's own token type; a float keeps its lexeme, since float parsing is not modelled. */
  datatype Token =
    | Op(code: Opcode)
    | Register(regNum: u8)
    | IntegerOperand(value: i32)
    | FloatOperand(text: string)
    | LabelDeclaration(name: string)
    | LabelUsage(name: string)
    | Directive(name: string)
    | IrString(name: string)
    | Comment

  // ------------------------------------------------------------ character classes

  /** What `read_number` keeps consuming: a decimal digit or '.'. */
  predicate IsNumberChar(c: char) { IsDigit(c) || c == '.' }

  /** What `read_identifier` keeps consuming: an alphanumeric or '_'. */
  predicate IsIdentifierChar(c: char) { IsAlphanumeric(c) || c == '_' }

  /** The first characters `next_token` sends to `read_number`. */
  predicate StartsNumber(c: char) { IsDigit(c) || c == '-' }

  /** The first characters `next_token` sends to `read_identifier`. */
  predicate StartsIdentifier(c: char) { IsAsciiAlpha(c) || c == '$' || c == '_' || c == '.' }

  /** Every character `next_token` accepts as the start of a token; any other one panics. */
  predicate StartsToken(c: char) { StartsNumber(c) || StartsIdentifier(c) || c == '"' || c == ';' }

  /** `end` is where the run of `p`-characters starting at `start` stops. */
  predicate RunEnds(chars: seq<char>, start: nat, p: char -> bool, end: nat) {
    start <= end <= |chars|
    && (forall i :: start <= i < end ==> p(chars[i]))
    && (end == |chars| || !p(chars[end]))
  }

  /** The index where the run of `p`-characters starting at `start` stops. */
  function SpanEnd(chars: seq<char>, start: nat, p: char -> bool): (end: nat)
    requires start <= |chars|
    ensures start <= end <= |chars|
    ensures RunEnds(chars, start, p, end)
  {
    var n := Span(chars[start..], p);
    assert forall i :: start <= i < start + n ==> chars[i] == chars[start..][i - start];
    start + n
  }

  /** There is only one such position, so a loop that stops at one has stopped at `SpanEnd`. */
  lemma SpanEndUnique(chars: seq<char>, start: nat, p: char -> bool, end: nat)
    requires RunEnds(chars, start, p, end)
    ensures SpanEnd(chars, start, p) == end
  {
  }

  /** Reading one more character extends the slice read so far. */
  lemma SliceExtend(chars: seq<char>, start: nat, end: nat)
    requires start <= end < |chars|
    ensures chars[start..end + 1] == chars[start..end] + [chars[end]]
  {
  }

  // ------------------------------------------------------------------ lexemes

  /** Rust's `f64` grammar on a lexeme of digits and dots: an optional '-', at most one '.', some digit. */
  predicate FloatTextOk(text: string) {
    var body := if text != [] && text[0] == '-' then text[1..] else text;
    (exists i :: 0 <= i < |body| && IsDigit(body[i])) && Dots(body) <= 1
  }

  /** The number of '.' characters in `s`. */
  function Dots(s: string): nat {
    if s == [] then 0 else (if s[0] == '.' then 1 else 0) + Dots(s[1..])
  }

  /** The token `read_number` builds from its lexeme, or None where `parse().unwrap()` panics. */
  function NumberToken(text: string): (t: Option<Token>)
  {
    if '.' in text then
      if FloatTextOk(text) then Some(FloatOperand(text)) else None
    else
      match ParseI32(text)
      case Ok(v) => Some(IntegerOperand(v))
      case Err(_) => None
  }

  /** `get_opcode`: only "LOAD", in any mix of cases. */
  function GetOpcode(name: string): (code: Option<Opcode>)
    ensures code.Some? ==> code.value == LOAD
  {
    if |name| == 4 && ToUpper(name[0]) == 'L' && ToUpper(name[1]) == 'O' && ToUpper(name[2]) == 'A'
       && ToUpper(name[3]) == 'D'
    then Some(LOAD)
    else None
  }

  /**
   * The classification at the end of `read_identifier`, given the character
   * after the name; the flag says whether the ':' after it is consumed.
   */
  function Classify(name: string, next: Option<char>): (r: (Token, bool))
    requires |name| > 0
    ensures r.0.Register? || r.0.LabelDeclaration? || r.0.Directive? || r.0.Op? || r.0.LabelUsage?
    ensures r.1 <==> r.0.LabelDeclaration?
    ensures r.0.LabelDeclaration? || r.0.LabelUsage? || r.0.Directive? ==> r.0.name == name
  {
    if (name[0] == '$' || name[0] == 'r') && ParseU8(name[1..], 10).Ok? then
      (Register(ParseU8(name[1..], 10).value), false)
    else if next == Some(':') then
      (LabelDeclaration(name), true)
    else if name[0] == '.' then
      (Directive(name), false)
    else if GetOpcode(name).Some? then
      (Op(GetOpcode(name).value), false)
    else
      (LabelUsage(name), false)
  }

  // ---------------------------------------------------- specification of each step

  /** The character at `position`, if any. */
  function CharAt(chars: seq<char>, position: nat): (c: Option<char>)
    ensures c.Some? <==> position < |chars|
    ensures c.Some? ==> c.value == chars[position]
  {
    if position < |chars| then Some(chars[position]) else None
  }

  /** Where `skip_whitespace` stops. */
  function SkipWhitespaceEnd(chars: seq<char>, position: nat): (end: nat)
    requires position <= |chars|
    ensures position <= end <= |chars|
  {
    SpanEnd(chars, position, IsWhitespace)
  }

  /** What `read_number` collects after `first`: the run of digits and dots. */
  function NumberLexeme(chars: seq<char>, position: nat, first: char): (text: string)
    requires position <= |chars|
  {
    [first] + chars[position..SpanEnd(chars, position, IsNumberChar)]
  }

  /** `read_number` after `first`: the token and the position after the lexeme, or None where it panics. */
  function ReadNumberSpec(chars: seq<char>, position: nat, first: char): (r: Option<(Token, nat)>)
    requires position <= |chars|
    ensures r.Some? ==> position <= r.value.1 <= |chars|
  {
    match NumberToken(NumberLexeme(chars, position, first))
    case None => None
    case Some(t) => Some((t, SpanEnd(chars, position, IsNumberChar)))
  }

  /** `read_identifier` after `first`: the classified token and the position after it. */
  function ReadIdentifierSpec(chars: seq<char>, position: nat, first: char): (r: (Token, nat))
    requires position <= |chars|
    ensures position <= r.1 <= |chars|
  {
    var end := SpanEnd(chars, position, IsIdentifierChar);
    var k := Classify([first] + chars[position..end], CharAt(chars, end));
    (k.0, if k.1 then end + 1 else end)
  }

  /**
   * `read_string`, entered just after the opening quote: one more character is
   * discarded, then the name runs to the next '"' (consumed) or to the end.
   */
  function ReadStringSpec(chars: seq<char>, position: nat): (r: (Token, nat))
    requires position <= |chars|
    ensures position <= r.1 <= |chars|
  {
    var start := if position < |chars| then position + 1 else position;
    var end := SpanEnd(chars, start, IsNotQuote);
    (IrString(chars[start..end]), if end < |chars| then end + 1 else end)
  }

  /** Where `read_comment` stops. */
  function ReadCommentEnd(chars: seq<char>, position: nat): (end: nat)
    requires position <= |chars|
    ensures position <= end <= |chars|
  {
    SpanEnd(chars, position, IsNotNewline)
  }

  /**
   * `next_token`: the token, or None at the end of the input, and the new
   * position; the outer None stands for a panic, on a character that starts no
   * token or on a number lexeme that does not parse.
   */
  function NextTokenSpec(chars: seq<char>, position: nat): (r: Option<(Option<Token>, nat)>)
    requires position <= |chars|
    ensures r.Some? ==> r.value.1 <= |chars|
  {
    var start := SkipWhitespaceEnd(chars, position);
    if start == |chars| then Some((None, start))
    else
      var c := chars[start];
      if StartsNumber(c) then
        match ReadNumberSpec(chars, start + 1, c)
        case None => None
        case Some(n) => Some((Some(n.0), n.1))
      else if StartsIdentifier(c) then
        var n := ReadIdentifierSpec(chars, start + 1, c);
        Some((Some(n.0), n.1))
      else if c == '"' then
        var n := ReadStringSpec(chars, start + 1);
        Some((Some(n.0), n.1))
      else if c == ';' then
        Some((Some(Comment), ReadCommentEnd(chars, start + 1)))
      else
        None
  }

  // ------------------------------------------------------------------- the cursor

  class Assembler {
    const content: string
    const chars: seq<char>
    var position: nat

    predicate Valid()
      reads this
    {
      position <= |chars|
    }

    /** A lexer at the start of `content`, as the tests build it. */
    constructor (content: string)
      ensures Valid()
      ensures this.content == content && chars == content && position == 0
    {
      this.content := content;
      chars := content;
      position := 0;
    }

    /** `peek`: the current character, without moving. */
    function Peek(): (c: Option<char>)
      reads this
      ensures c.Some? <==> position < |chars|
      ensures c.Some? ==> c.value == chars[position]
    {
      if position < |chars| then Some(chars[position]) else None
    }

    /** `advance`: the current character, moving past it; at the end, None and no move. */
    method Advance() returns (c: Option<char>)
      modifies this
      ensures c == CharAt(chars, old(position))
      ensures position == if old(position) < |chars| then old(position) + 1 else old(position)
    {
      if position < |chars| {
        c := Some(chars[position]);
        position := position + 1;
      } else {
        c := None;
      }
    }

    method SkipWhitespace()
      requires Valid()
      modifies this
      ensures Valid()
      ensures position == SkipWhitespaceEnd(chars, old(position))
    {
      ghost var start := position;
      var c := Peek();
      while c.Some? && IsWhitespace(c.value)
        invariant start <= position <= |chars|
        invariant forall i :: start <= i < position ==> IsWhitespace(chars[i])
        invariant c == CharAt(chars, position)
        decreases |chars| - position
      {
        var skipped := Advance();
        c := Peek();
      }
      SpanEndUnique(chars, start, IsWhitespace, position);
    }

    /** The loop of `read_number`: collects the lexeme and notes whether a '.' was seen. */
    method ScanNumber(first: char) returns (number: string, isFloat: bool)
      requires Valid() && StartsNumber(first)
      modifies this
      ensures Valid()
      ensures number == NumberLexeme(chars, old(position), first)
      ensures position == SpanEnd(chars, old(position), IsNumberChar)
      ensures isFloat <==> '.' in number
    {
      ghost var start := position;
      number := [first];
      isFloat := false;
      var c := Peek();
      while c.Some? && (IsDigit(c.value) || c.value == '.')
        invariant start <= position <= |chars|
        invariant forall i :: start <= i < position ==> IsNumberChar(chars[i])
        invariant number == [first] + chars[start..position]
        invariant isFloat <==> '.' in number
        invariant c == CharAt(chars, position)
        decreases |chars| - position
      {
        if c.value == '.' {
          isFloat := true;
        }
        SliceExtend(chars, start, position);
        number := number + [c.value];
        var consumed := Advance();
        c := Peek();
      }
      SpanEndUnique(chars, start, IsNumberChar, position);
    }

    method ReadNumber(first: char) returns (t: Token)
      requires Valid() && StartsNumber(first) && ReadNumberSpec(chars, position, first).Some?
      modifies this
      ensures Valid()
      ensures Some((t, position)) == ReadNumberSpec(chars, old(position), first)
    {
      var number, isFloat := ScanNumber(first);
      if isFloat {
        t := FloatOperand(number);
      } else {
        t := IntegerOperand(ParseI32(number).value);
      }
    }

    /** The loop of `read_identifier`: collects the name. */
    method ScanIdentifier(first: char) returns (name: string)
      requires Valid()
      modifies this
      ensures Valid()
      ensures position == SpanEnd(chars, old(position), IsIdentifierChar)
      ensures name == [first] + chars[old(position)..position]
    {
      ghost var start := position;
      name := [first];
      var c := Peek();
      while c.Some? && (IsAlphanumeric(c.value) || c.value == '_')
        invariant start <= position <= |chars|
        invariant forall i :: start <= i < position ==> IsIdentifierChar(chars[i])
        invariant name == [first] + chars[start..position]
        invariant c == CharAt(chars, position)
        decreases |chars| - position
      {
        SliceExtend(chars, start, position);
        name := name + [c.value];
        var consumed := Advance();
        c := Peek();
      }
      SpanEndUnique(chars, start, IsIdentifierChar, position);
    }

    method ReadIdentifier(first: char) returns (t: Token)
      requires Valid()
      modifies this
      ensures Valid()
      ensures (t, position) == ReadIdentifierSpec(chars, old(position), first)
    {
      var name := ScanIdentifier(first);
      if name[0] == '$' || name[0] == 'r' {
        var reg := ParseU8(name[1..], 10);
        if reg.Ok? {
          return Register(reg.value);
        }
      }
      var next := Peek();
      if next.Some? && next.value == ':' {
        var colon := Advance();
        return LabelDeclaration(name);
      }
      if name[0] == '.' {
        return Directive(name);
      }
      var code := GetOpcode(name);
      if code.Some? {
        return Op(code.value);
      }
      return LabelUsage(name);
    }

    method ReadString() returns (t: Token)
      requires Valid()
      modifies this
      ensures Valid()
      ensures (t, position) == ReadStringSpec(chars, old(position))
    {
      var discarded := Advance();
      ghost var start := position;
      var text: string := [];
      var c := Advance();
      while c.Some? && c.value != '"'
        invariant start <= position <= |chars|
        invariant c.Some? ==> start < position && c.value == chars[position - 1]
        invariant c.None? ==> position == |chars|
        invariant text == chars[start..if c.Some? then position - 1 else position]
        invariant forall i :: start <= i < start + |text| ==> IsNotQuote(chars[i])
        decreases |chars| - position + if c.Some? then 1 else 0
      {
        SliceExtend(chars, start, position - 1);
        text := text + [c.value];
        c := Advance();
      }
      var end := if c.Some? then position - 1 else position;
      SpanEndUnique(chars, start, IsNotQuote, end);
      t := IrString(text);
    }

    method ReadComment() returns (t: Token)
      requires Valid()
      modifies this
      ensures Valid()
      ensures t == Comment && position == ReadCommentEnd(chars, old(position))
    {
      ghost var start := position;
      var c := Peek();
      while c.Some? && c.value != '\n'
        invariant start <= position <= |chars|
        invariant forall i :: start <= i < position ==> IsNotNewline(chars[i])
        invariant c == CharAt(chars, position)
        decreases |chars| - position
      {
        var skipped := Advance();
        c := Peek();
      }
      SpanEndUnique(chars, start, IsNotNewline, position);
      t := Comment;
    }

    method NextToken() returns (t: Option<Token>)
      requires Valid() && NextTokenSpec(chars, position).Some?
      modifies this
      ensures Valid()
      ensures Some((t, position)) == NextTokenSpec(chars, old(position))
    {
      ghost var spec := NextTokenSpec(chars, position);
      SkipWhitespace();
      ghost var start := position;
      var c := Advance();
      if c.None? {
        return None;
      }
      var first := c.value;
      assert position == start + 1 && first == chars[start];
      if IsDigit(first) || first == '-' {
        ghost var expected := ReadNumberSpec(chars, start + 1, chars[start]);
        assert spec == Some((Some(expected.value.0), expected.value.1));
        var token := ReadNumber(first);
        t := Some(token);
      } else if IsAsciiAlpha(first) || first == '$' || first == '_' || first == '.' {
        ghost var expected := ReadIdentifierSpec(chars, start + 1, chars[start]);
        assert spec == Some((Some(expected.0), expected.1));
        var token := ReadIdentifier(first);
        t := Some(token);
      } else if first == '"' {
        ghost var expected := ReadStringSpec(chars, start + 1);
        assert spec == Some((Some(expected.0), expected.1));
        var token := ReadString();
        t := Some(token);
      } else {
        assert spec == Some((Some(Comment), ReadCommentEnd(chars, start + 1)));
        var token := ReadComment();
        t := Some(token);
      }
    }
  }
}

/** What the draft lexer promises, stated about the specification functions its methods are proved against. */
module DraftLexerProperties {
  import opened Wrappers
  import opened Instruction
  import opened Chars
  import opened IntParse
  import opened DraftLexer

  // ------------------------------------------------------------ skipping and scanning

  /** `skip_whitespace` consumes only whitespace and stops at the end or on a non-whitespace character. */
  lemma SkipWhitespaceStops(chars: seq<char>, position: nat)
    requires position <= |chars|
    ensures var end := SkipWhitespaceEnd(chars, position);
      (forall i :: position <= i < end ==> IsWhitespace(chars[i]))
      && (end == |chars| || !IsWhitespace(chars[end]))
  {
    var end := SkipWhitespaceEnd(chars, position);
    assert RunEnds(chars, position, IsWhitespace, end);
  }

  /** `read_comment` consumes up to, and not including, the next '\n'. */
  lemma ReadCommentStopsAtNewline(chars: seq<char>, position: nat)
    requires position <= |chars|
    ensures var end := ReadCommentEnd(chars, position);
      '\n' !in chars[position..end] && (end == |chars| || chars[end] == '\n')
  {
    var end := ReadCommentEnd(chars, position);
    assert RunEnds(chars, position, IsNotNewline, end);
    assert forall i :: 0 <= i < end - position ==> chars[position..end][i] == chars[position + i];
  }

  // ------------------------------------------------------------------- next_token

  /** `next_token` returns None exactly when only whitespace remains, and then stands at the end. */
  lemma NextTokenNoneIffWhitespace(chars: seq<char>, position: nat)
    requires position <= |chars|
    ensures (forall i :: position <= i < |chars| ==> IsWhitespace(chars[i])) ==>
      NextTokenSpec(chars, position).Some? && NextTokenSpec(chars, position).value == (None, |chars|)
    ensures NextTokenSpec(chars, position).Some? && NextTokenSpec(chars, position).value.0.None? ==>
      forall i :: position <= i < |chars| ==> IsWhitespace(chars[i])
  {
    SkipWhitespaceStops(chars, position);
  }

  /** `next_token` panics exactly on a character that starts no token, or on a number lexeme that does not parse. */
  lemma NextTokenPanics(chars: seq<char>, position: nat)
    requires position <= |chars|
    ensures var start := SkipWhitespaceEnd(chars, position);
      NextTokenSpec(chars, position).None? <==>
        start < |chars|
        && (!StartsToken(chars[start])
            || (StartsNumber(chars[start]) && NumberToken(NumberLexeme(chars, start + 1, chars[start])).None?))
  {
  }

  /**
   * The first non-whitespace character decides the kind of token, each kind
   * coming from one class only, and the token ends after that character.
   */
  lemma NextTokenDispatch(chars: seq<char>, position: nat)
    requires position <= |chars| && NextTokenSpec(chars, position).Some?
    requires SkipWhitespaceEnd(chars, position) < |chars|
    ensures var start := SkipWhitespaceEnd(chars, position);
      var c := chars[start];
      var r := NextTokenSpec(chars, position).value;
      r.0.Some? && start < r.1
      && (StartsNumber(c) <==> r.0.value.IntegerOperand? || r.0.value.FloatOperand?)
      && (StartsIdentifier(c) <==>
            r.0.value.Register? || r.0.value.LabelDeclaration? || r.0.value.LabelUsage?
            || r.0.value.Directive? || r.0.value.Op?)
      && (c == '"' <==> r.0.value.IrString?)
      && (c == ';' <==> r.0.value.Comment?)
  {
    var start := SkipWhitespaceEnd(chars, position);
    var c := chars[start];
    var r := NextTokenSpec(chars, position).value;
    if StartsNumber(c) {
      var n := ReadNumberSpec(chars, start + 1, c).value;
      assert r == (Some(n.0), n.1);
      NumberTokenKind(NumberLexeme(chars, start + 1, c));
    } else if StartsIdentifier(c) {
      var n := ReadIdentifierSpec(chars, start + 1, c);
      assert r == (Some(n.0), n.1);
    } else if c == '"' {
      var n := ReadStringSpec(chars, start + 1);
      assert r == (Some(n.0), n.1);
    } else {
      assert r == (Some(Comment), ReadCommentEnd(chars, start + 1));
    }
  }

  // -------------------------------------------------------------------- numbers

  /** `read_number` yields a float exactly when its lexeme holds a '.'. */
  lemma NumberTokenKind(text: string)
    requires NumberToken(text).Some?
    ensures NumberToken(text).value.FloatOperand? <==> '.' in text
    ensures NumberToken(text).value.IntegerOperand? <==> '.' !in text
  {
  }

  /** A lexeme of decimal digits is the integer of its decimal value; beyond `i32`, `unwrap` panics. */
  lemma NumberTokenDecimal(digits: string)
    requires |digits| > 0 && AllDigits(digits)
    ensures NumberToken(digits).Some? <==> DigitsValue(0, digits, 10) <= 0x7FFF_FFFF
    ensures NumberToken(digits).Some? ==>
      NumberToken(digits).value.IntegerOperand?
      && NumberToken(digits).value.value as int == DigitsValue(0, digits, 10)
  {
    AllDigitsDecimal(digits);
    FromStrRadixDigits(digits, 10, true, -0x8000_0000, 0x7FFF_FFFF);
  }

  /** A '-' and decimal digits give minus their value, down to the `i32` minimum. */
  lemma NumberTokenNegative(digits: string)
    requires |digits| > 0 && AllDigits(digits)
    ensures NumberToken(['-'] + digits).Some? <==> DigitsValue(0, digits, 10) <= 0x8000_0000
    ensures NumberToken(['-'] + digits).Some? ==>
      NumberToken(['-'] + digits).value.IntegerOperand?
      && NumberToken(['-'] + digits).value.value as int == -DigitsValue(0, digits, 10)
  {
    AllDigitsDecimal(digits);
    FromStrRadixNegDigits(digits, 10, -0x8000_0000, 0x7FFF_FFFF);
  }

  /** A lone '-' and a lexeme with two dots both panic. */
  lemma NumberTokenPanics()
    ensures NumberToken("-") == None
    ensures NumberToken("1.2.3") == None
    ensures NumberToken("-.") == None
  {
    assert Dots("1.2.3") == 2;
    assert !FloatTextOk("-.") by {
      var body: string := ("-.")[1..];
      assert body == ".";
      assert forall i :: 0 <= i < |body| ==> !IsDigit(body[i]);
    }
  }

  // ---------------------------------------------------------------- identifiers

  /** `get_opcode` is Rust's comparison of the upper-cased name with "LOAD". */
  lemma GetOpcodeUpper(name: string)
    ensures GetOpcode(name).Some? <==> UpperString(name) == "LOAD"
  {
    var up := UpperString(name);
    if GetOpcode(name).Some? {
      assert up == "LOAD" by {
        assert |up| == 4;
        forall i | 0 <= i < 4 ensures up[i] == "LOAD"[i] {
        }
      }
    }
    if up == "LOAD" {
      assert up[0] == 'L' && up[1] == 'O' && up[2] == 'A' && up[3] == 'D';
    }
  }

  /** So the opcode lookup ignores case. */
  lemma GetOpcodeIgnoresCase(name: string)
    ensures GetOpcode(UpperString(name)) == GetOpcode(name)
  {
  }

  /** The order in which `read_identifier` tries the classes. */
  lemma ClassifyPriority(name: string, next: Option<char>)
    requires |name| > 0
    ensures var register := (name[0] == '$' || name[0] == 'r') && ParseU8(name[1..], 10).Ok?;
      var k := Classify(name, next);
      (k.0.Register? <==> register)
      && (k.0.LabelDeclaration? <==> !register && next == Some(':'))
      && (k.0.Directive? <==> !register && next != Some(':') && name[0] == '.')
      && (k.0.Op? <==> !register && next != Some(':') && name[0] != '.' && UpperString(name) == "LOAD")
      && (k.0.LabelUsage? <==> !register && next != Some(':') && name[0] != '.' && UpperString(name) != "LOAD")
  {
    GetOpcodeUpper(name);
  }

  /** A '$' or 'r' and a decimal number up to 255 is that register, even before a ':', which stays unconsumed. */
  lemma ClassifyRegister(name: string, next: Option<char>)
    requires |name| > 1 && (name[0] == '$' || name[0] == 'r') && AllDigits(name[1..])
    requires DigitsValue(0, name[1..], 10) <= 255
    ensures Classify(name, next).0.Register? && !Classify(name, next).1
    ensures Classify(name, next).0.regNum as int == DigitsValue(0, name[1..], 10)
  {
    AllDigitsDecimal(name[1..]);
    FromStrRadixDigits(name[1..], 10, false, 0, 0xFF);
  }

  /** Past 255 the name is no register, and becomes a label. */
  lemma ClassifyRegisterOverflow(name: string, next: Option<char>)
    requires |name| > 1 && name[0] == 'r' && AllDigits(name[1..])
    requires DigitsValue(0, name[1..], 10) > 255
    ensures Classify(name, next).0 == if next == Some(':') then LabelDeclaration(name) else LabelUsage(name)
  {
    AllDigitsDecimal(name[1..]);
    FromStrRadixDigits(name[1..], 10, false, 0, 0xFF);
    assert GetOpcode(name).None? by {
      if |name| == 4 {
        assert IsDigit(name[1..][0]);
      }
    }
  }

  // -------------------------------------------------------------------- strings

  /**
   * `read_string` skips the character after the opening quote, and its name
   * holds no '"': it runs to the next '"', which is consumed, or to the end.
   */
  lemma ReadStringShape(chars: seq<char>, position: nat)
    requires position <= |chars|
    ensures var start := if position < |chars| then position + 1 else position;
      var r := ReadStringSpec(chars, position);
      var end := start + |r.0.name|;
      r.0.IrString? && '"' !in r.0.name
      && end <= |chars| && r.0.name == chars[start..end]
      && ((end == |chars| && r.1 == end) || (end < |chars| && chars[end] == '"' && r.1 == end + 1))
  {
    var start := if position < |chars| then position + 1 else position;
    var end := SpanEnd(chars, start, IsNotQuote);
    assert RunEnds(chars, start, IsNotQuote, end);
    assert forall i :: 0 <= i < end - start ==> chars[start..end][i] == chars[start + i];
  }

  // -------------------------------------------------------------------- examples

  /** The draft's test of an integer operand: "42". */
  lemma TestIntegerOperand()
    ensures NextTokenSpec("42", 0) == Some((Some(IntegerOperand(42)), 2))
  {
    var chars := "42";
    SpanEndUnique(chars, 0, IsWhitespace, 0);
    SpanEndUnique(chars, 1, IsNumberChar, 2);
    assert SkipWhitespaceEnd(chars, 0) == 0 && StartsNumber(chars[0]);
    assert NumberLexeme(chars, 1, '4') == chars;
    assert DigitsValue(0, chars, 10) == 42;
    NumberTokenDecimal(chars);
  }

  /** The draft's test of a float operand: "42.5", whose lexeme is kept. */
  lemma TestFloatOperand()
    ensures NextTokenSpec("42.5", 0) == Some((Some(FloatOperand("42.5")), 4))
  {
    var chars := "42.5";
    SpanEndUnique(chars, 0, IsWhitespace, 0);
    SpanEndUnique(chars, 1, IsNumberChar, 4);
    assert NumberLexeme(chars, 1, '4') == chars;
    FloatLexemeExample();
    assert SkipWhitespaceEnd(chars, 0) == 0 && StartsNumber(chars[0]);
    assert ReadNumberSpec(chars, 1, '4') == Some((FloatOperand(chars), 4));
  }

  /** "42.5" is a float lexeme: it has a digit and one '.'. */
  lemma FloatLexemeExample()
    ensures NumberToken("42.5") == Some(FloatOperand("42.5"))
  {
    var chars := "42.5";
    assert '.' in chars by {
      assert chars[2] == '.';
    }
    assert FloatTextOk(chars) by {
      assert IsDigit(chars[0]);
      assert Dots(chars) == 1;
    }
  }

  /** The draft's test of a label declaration: "main:" consumes the ':' and drops it from the name. */
  lemma TestLabelDeclaration()
    ensures NextTokenSpec("main:", 0) == Some((Some(LabelDeclaration("main")), 5))
  {
    var chars := "main:";
    SpanEndUnique(chars, 0, IsWhitespace, 0);
    SpanEndUnique(chars, 1, IsIdentifierChar, 4);
    assert SkipWhitespaceEnd(chars, 0) == 0 && !StartsNumber(chars[0]) && StartsIdentifier(chars[0]);
    assert ['m'] + chars[1..4] == "main";
    assert Classify("main", Some(':')) == (LabelDeclaration("main"), true);
  }

  /** The draft's test of a register: "$1". */
  lemma TestRegister()
    ensures NextTokenSpec("$1", 0) == Some((Some(Register(1)), 2))
  {
    var chars := "$1";
    SpanEndUnique(chars, 0, IsWhitespace, 0);
    SpanEndUnique(chars, 1, IsIdentifierChar, 2);
    assert SkipWhitespaceEnd(chars, 0) == 0 && !StartsNumber(chars[0]) && StartsIdentifier(chars[0]);
    assert ['$'] + chars[1..2] == chars;
    assert DigitsValue(0, "1", 10) == 1;
    ClassifyRegister(chars, None);
  }

  /** A register name is a register even before a ':'. */
  lemma ClassifyRegisterBeforeColon()
    ensures Classify("r1", Some(':')) == (Register(1), false)
  {
    assert DigitsValue(0, "1", 10) == 1;
    ClassifyRegister("r1", Some(':'));
  }

  /** A mnemonic followed by ':' is a label declaration. */
  lemma ClassifyMnemonicBeforeColon()
    ensures Classify("load", Some(':')) == (LabelDeclaration("load"), true)
  {
    assert "load"[1..] == "oad";
  }

  /** A name starting with '.' is a directive. */
  lemma ClassifyDirective()
    ensures Classify(".data", None) == (Directive(".data"), false)
  {
    assert ".data"[0] == '.';
  }

  /** Mnemonics are recognised in any case. */
  lemma ClassifyMixedCaseMnemonic()
    ensures Classify("LoAd", None) == (Op(LOAD), false)
  {
    assert "LoAd"[1..] == "oAd";
  }

  /** A register number above 255 makes the name a label usage. */
  lemma ClassifyRegisterTooLarge()
    ensures Classify("r256", None) == (LabelUsage("r256"), false)
  {
    assert DigitsValue(0, "256", 10) == 256;
    ClassifyRegisterOverflow("r256", None);
  }

  /** `read_string` drops the first character inside the quotes. */
  lemma ReadStringDropsFirst()
    ensures ReadStringSpec("\"abc\"", 1) == (IrString("bc"), 5)
  {
    var chars := "\"abc\"";
    SpanEndUnique(chars, 2, IsNotQuote, 4);
    assert chars[2..4] == "bc";
  }

  /** An empty string literal loses its closing quote; at the end of the input that gives an empty name. */
  lemma ReadStringEmptyAtEnd()
    ensures ReadStringSpec("\"\"", 1) == (IrString(""), 2)
  {
    var chars := "\"\"";
    SpanEndUnique(chars, 2, IsNotQuote, 2);
    assert chars[2..2] == "";
  }

  /** Otherwise an empty string literal reads on to the next '"'. */
  lemma ReadStringEmptyReadsOn()
    ensures ReadStringSpec("\"\" x\"", 1) == (IrString(" x"), 5)
  {
    var chars := "\"\" x\"";
    SpanEndUnique(chars, 2, IsNotQuote, 4);
    assert chars[2..4] == " x";
  }
}
