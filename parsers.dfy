/**
 * The tokenizer's lexical rules. Each parser returns the remaining input and a
 * token, or no match; nom's `tag_no_case`, `char`, `digit1`, `alpha1` and
 * `take_while1` are written out as string rules.
 */
module Parsers {
  import opened Wrappers
  import opened Instruction
  import opened Tokens
  import opened Chars

  datatype ParseResult = Match(rest: string, token: Token) | NoMatch

  /** A match consumed a non-empty prefix of the input. */
  predicate Consumes(input: string, r: ParseResult) {
    r.Match? ==> |r.rest| < |input| && r.rest == input[|input| - |r.rest|..]
  }

  const MnemonicCount: nat := 18

  /** The mnemonics `parse_opcode` tries, in its order, with the opcode each maps to. */
  function Mnemonic(k: nat): (m: (string, Opcode))
    requires k < MnemonicCount
    ensures |m.0| > 0
  {
    match k
    case 0 => ("halt", HLT)
    case 1 => ("load", LOAD)
    case 2 => ("add", ADD)
    case 3 => ("sub", SUB)
    case 4 => ("mul", MUL)
    case 5 => ("div", DIV)
    case 6 => ("jmp", JMP)
    case 7 => ("jmpf", JMPF)
    case 8 => ("eq", EQ)
    case 9 => ("neq", NEQ)
    case 10 => ("gt", GT)
    case 11 => ("lt", LT)
    case 12 => ("gtq", GTQ)
    case 13 => ("ltq", LTQ)
    case 14 => ("jmpeq", JMPEQ)
    case 15 => ("label", LABEL)
    case 16 => ("square", SQUARE)
    case _ => ("alloc", ALLOC)
  }

  /** `tag_no_case(tag)` succeeds on `input` (every tag is lower-case ASCII). */
  predicate HasTagNoCase(input: string, tag: string) {
    |tag| <= |input| && forall i :: 0 <= i < |tag| ==> ToLower(input[i]) == tag[i]
  }

  /** Index of the first mnemonic from `k` on that `input` starts with. */
  function FirstTag(input: string, k: nat): (r: Option<nat>)
    requires k <= MnemonicCount
    decreases MnemonicCount - k
    ensures r.Some? ==> k <= r.value < MnemonicCount && HasTagNoCase(input, Mnemonic(r.value).0)
    ensures r.Some? ==> forall j :: k <= j < r.value ==> !HasTagNoCase(input, Mnemonic(j).0)
    ensures r.None? ==> forall j :: k <= j < MnemonicCount ==> !HasTagNoCase(input, Mnemonic(j).0)
  {
    if k == MnemonicCount then None
    else if HasTagNoCase(input, Mnemonic(k).0) then Some(k)
    else FirstTag(input, k + 1)
  }

  /** `parse_opcode`: the first listed mnemonic the input starts with, case-insensitively. */
  function ParseOpcode(input: string): (r: ParseResult)
    ensures Consumes(input, r)
    ensures r.Match? ==> r.token.Op?
  {
    match FirstTag(input, 0)
    case None => NoMatch
    case Some(k) => Match(input[|Mnemonic(k).0|..], Op(Mnemonic(k).1))
  }

  /**
   * `parse_opcode` matches exactly when the input starts with some listed
   * mnemonic, and then it consumes the first such mnemonic in the list and
   * yields its opcode.
   */
  lemma ParseOpcodeMatches(input: string)
    ensures ParseOpcode(input).Match? <==> exists k :: 0 <= k < MnemonicCount && HasTagNoCase(input, Mnemonic(k).0)
    ensures ParseOpcode(input).Match? ==>
      exists k :: 0 <= k < MnemonicCount && HasTagNoCase(input, Mnemonic(k).0)
        && (forall j :: 0 <= j < k ==> !HasTagNoCase(input, Mnemonic(j).0))
        && ParseOpcode(input) == Match(input[|Mnemonic(k).0|..], Op(Mnemonic(k).1))
  {
    var f := FirstTag(input, 0);
    if f.Some? {
      var k := f.value;
      assert HasTagNoCase(input, Mnemonic(k).0);
    }
  }

  /**
   * A longer mnemonic listed after a shorter one it extends ("jmpf" after "jmp",
   * "gtq" after "gt") is never produced; neither are SET, which has no entry, nor IGL.
   */
  lemma ParseOpcodeNeverYields(input: string)
    ensures ParseOpcode(input).Match? ==> ParseOpcode(input).token.code !in {JMPF, JMPEQ, GTQ, LTQ, SET, IGL}
  {
    var f := FirstTag(input, 0);
    if f.Some? {
      var k := f.value;
      MnemonicCodes(k);
      if k == 7 || k == 14 {
        TagExtends(input, Mnemonic(6).0, Mnemonic(k).0);
      }
    }
  }

  /** The entries that map to an opcode `parse_opcode` cannot produce. */
  lemma MnemonicCodes(k: nat)
    requires k < MnemonicCount
    ensures Mnemonic(k).1 in {JMPF, JMPEQ, GTQ, LTQ, SET, IGL} ==> k in {7, 12, 13, 14}
    ensures k == 7 || k == 14 ==> Mnemonic(6).0 == Mnemonic(k).0[..3]
    ensures k == 12 ==> Mnemonic(10).0 == Mnemonic(12).0[..2]
    ensures k == 13 ==> Mnemonic(11).0 == Mnemonic(13).0[..2]
  {
  }

  /** An input that starts with a tag also starts with every prefix of it. */
  lemma TagExtends(input: string, short: string, long: string)
    requires |short| <= |long| && short == long[..|short|] && HasTagNoCase(input, long)
    ensures HasTagNoCase(input, short)
  {
  }

  /** A mnemonic whose first character does not match is passed over. */
  lemma FirstTagSkips(input: string, k: nat)
    requires k < MnemonicCount && |input| > 0 && ToLower(input[0]) != Mnemonic(k).0[0]
    ensures FirstTag(input, k) == FirstTag(input, k + 1)
  {
    assert !HasTagNoCase(input, Mnemonic(k).0);
  }

  /** A mnemonic the input starts with is found where it is listed. */
  lemma FirstTagHere(input: string, k: nat)
    requires k < MnemonicCount && HasTagNoCase(input, Mnemonic(k).0)
    ensures FirstTag(input, k) == Some(k)
  {
  }

  /** No word boundary is needed after the mnemonic: "address" lexes as ADD with "ress" left. */
  lemma ParseOpcodeAddress()
    ensures ParseOpcode("address") == Match("ress", Op(ADD))
  {
    var input := "address";
    assert input[..3] == "add";
    FirstTagHere(input, 2);
    FirstTagSkips(input, 1);
    FirstTagSkips(input, 0);
  }

  /** "jmpf" lexes as JMP with "f" left. */
  lemma ParseOpcodeJmpf()
    ensures ParseOpcode("jmpf") == Match("f", Op(JMP))
  {
    var input := "jmpf";
    assert input[..3] == "jmp";
    FirstTagHere(input, 6);
    FirstTagSkips(input, 5);
    FirstTagSkips(input, 4);
    FirstTagSkips(input, 3);
    FirstTagSkips(input, 2);
    FirstTagSkips(input, 1);
    FirstTagSkips(input, 0);
  }

  /** The longest prefix of decimal digits. */
  function DigitPrefix(s: string): (ds: string)
    ensures |ds| <= |s| && ds == s[..|ds|] && AllDigits(ds)
    ensures |ds| == |s| || !IsDigit(s[|ds|])
  {
    s[..Span(s, IsDigit)]
  }

  /** `digits.parse::<u8>().unwrap()` in `parse_register` does not panic. */
  predicate RegisterFits(input: string) {
    |input| >= 1 && input[0] == '$' ==> DecimalValue(DigitPrefix(input[1..])) < 0x100
  }

  /** `parse_integer`'s `parse::<i32>().unwrap()` does not panic. */
  predicate IntegerFits(input: string) {
    if |input| >= 1 && input[0] == '-' then DecimalValue(DigitPrefix(input[1..])) <= 0x8000_0000
    else DecimalValue(DigitPrefix(input)) < 0x8000_0000
  }

  /** `parse_register`: '$' followed by one or more decimal digits. */
  function ParseRegister(input: string): (r: ParseResult)
    requires RegisterFits(input)
    ensures Consumes(input, r)
    ensures r.Match? <==> |input| >= 2 && input[0] == '$' && IsDigit(input[1])
    ensures r.Match? ==> (var n := |input| - |r.rest|;
      AllDigits(input[1..n]) && (r.rest == [] || !IsDigit(r.rest[0]))
      && r.token.Register? && r.token.regNum == DecimalValue(input[1..n]))
  {
    if |input| == 0 || input[0] != '$' then NoMatch
    else
      var ds := DigitPrefix(input[1..]);
      if ds == [] then NoMatch
      else
        assert input[1..1 + |ds|] == ds;
        Match(input[1 + |ds|..], Register(DecimalValue(ds)))
  }

  /** `parse_integer`: an optional '-' followed by one or more digits, read as an `i32`. */
  function ParseInteger(input: string): (r: ParseResult)
    requires IntegerFits(input)
    ensures Consumes(input, r)
    ensures r.Match? <==> (|input| >= 1 && IsDigit(input[0])) || (|input| >= 2 && input[0] == '-' && IsDigit(input[1]))
    ensures r.Match? ==> (var n := |input| - |r.rest|; var sign := if input[0] == '-' then 1 else 0;
      AllDigits(input[sign..n]) && (r.rest == [] || !IsDigit(r.rest[0])) && r.token.IntegerOperand?
      && r.token.value == if sign == 1 then -(DecimalValue(input[1..n]) as int) else DecimalValue(input[..n]))
  {
    var sign := if |input| >= 1 && input[0] == '-' then 1 else 0;
    var ds := DigitPrefix(input[sign..]);
    if ds == [] then NoMatch
    else
      assert input[sign..sign + |ds|] == ds;
      Match(input[sign + |ds|..], IntegerOperand(if sign == 1 then -(DecimalValue(ds) as int) else DecimalValue(ds)))
  }

  predicate IsLabelDeclarationChar(c: char) { IsAlphanumeric(c) || c == ':' }

  predicate IsLabelUsageChar(c: char) { IsAlphanumeric(c) || c == '@' }

  /** `take_while1(p)` followed by building a token from the taken text. */
  function TakeWhile1(input: string, p: char -> bool): (r: Option<(string, string)>)
    ensures r.Some? <==> |input| > 0 && p(input[0])
    ensures r.Some? ==> (|r.value.0| > 0 && input == r.value.0 + r.value.1
      && (forall i :: 0 <= i < |r.value.0| ==> p(r.value.0[i]))
      && (r.value.1 == [] || !p(r.value.1[0])))
  {
    var n := Span(input, p);
    assert input == input[..n] + input[n..];
    if n == 0 then None else Some((input[..n], input[n..]))
  }

  /** `parse_label_declaration`: the longest non-empty run of alphanumerics and ':'; no ':' is required. */
  function ParseLabelDeclaration(input: string): (r: ParseResult)
    ensures Consumes(input, r)
    ensures r.Match? <==> |input| > 0 && IsLabelDeclarationChar(input[0])
    ensures r.Match? ==> (r.token.LabelDeclaration? && input == r.token.name + r.rest
      && (forall i :: 0 <= i < |r.token.name| ==> IsLabelDeclarationChar(r.token.name[i]))
      && (r.rest == [] || !IsLabelDeclarationChar(r.rest[0])))
  {
    match TakeWhile1(input, IsLabelDeclarationChar)
    case None => NoMatch
    case Some((name, rest)) => Match(rest, LabelDeclaration(name))
  }

  /** `parse_label_usage`: the same rule with '@' in place of ':'. */
  function ParseLabelUsage(input: string): (r: ParseResult)
    ensures Consumes(input, r)
    ensures r.Match? <==> |input| > 0 && IsLabelUsageChar(input[0])
    ensures r.Match? ==> (r.token.LabelUsage? && input == r.token.name + r.rest
      && (forall i :: 0 <= i < |r.token.name| ==> IsLabelUsageChar(r.token.name[i]))
      && (r.rest == [] || !IsLabelUsageChar(r.rest[0])))
  {
    match TakeWhile1(input, IsLabelUsageChar)
    case None => NoMatch
    case Some((name, rest)) => Match(rest, LabelUsage(name))
  }

  /** `parse_directive`: '.' and one or more ASCII letters; the name excludes the dot. */
  function ParseDirective(input: string): (r: ParseResult)
    ensures Consumes(input, r)
    ensures r.Match? <==> |input| >= 2 && input[0] == '.' && IsAsciiAlpha(input[1])
    ensures r.Match? ==> (r.token.Directive? && input == ['.'] + r.token.name + r.rest
      && (forall i :: 0 <= i < |r.token.name| ==> IsAsciiAlpha(r.token.name[i]))
      && (r.rest == [] || !IsAsciiAlpha(r.rest[0])))
  {
    if |input| == 0 || input[0] != '.' then NoMatch
    else match TakeWhile1(input[1..], IsAsciiAlpha)
      case None => NoMatch
      case Some((name, rest)) => Match(rest, Directive(name))
  }

  /** `parse_string`: non-empty, quote-free content between two '"'; the quotes are dropped. */
  function ParseString(input: string): (r: ParseResult)
    ensures Consumes(input, r)
    ensures r.Match? <==> |input| >= 3 && input[0] == '"' && input[1] != '"' && '"' in input[2..]
    ensures r.Match? ==> (r.token.IrString? && |r.token.name| > 0 && '"' !in r.token.name
      && input == ['"'] + r.token.name + ['"'] + r.rest)
  {
    if |input| == 0 || input[0] != '"' then NoMatch
    else match TakeWhile1(input[1..], IsNotQuote)
      case None => NoMatch
      case Some((content, rest)) =>
        assert '"' !in content by { assert forall i :: 0 <= i < |content| ==> IsNotQuote(content[i]); }
        assert input[1..] == content + rest;
        if |rest| == 0 || rest[0] != '"' then
          assert '"' !in input[2..] by {
            assert forall i :: 0 <= i < |input[1..]| ==> IsNotQuote(input[1..][i]);
          }
          NoMatch
        else
          assert input == ['"'] + content + ['"'] + rest[1..];
          Match(rest[1..], IrString(content))
  }

  /** `parse_comment`: ';' and at least one character, up to but not including the next newline. */
  function ParseComment(input: string): (r: ParseResult)
    ensures Consumes(input, r)
    ensures r.Match? <==> |input| >= 2 && input[0] == ';' && input[1] != '\n'
    ensures r.Match? ==> (r.token == Comment && '\n' !in input[1..|input| - |r.rest|]
      && (r.rest == [] || r.rest[0] == '\n'))
  {
    if |input| == 0 || input[0] != ';' then NoMatch
    else match TakeWhile1(input[1..], IsNotNewline)
      case None => NoMatch
      case Some((text, rest)) =>
        assert input[1..|input| - |rest|] == text;
        assert forall i :: 0 <= i < |text| ==> IsNotNewline(text[i]);
        Match(rest, Comment)
  }
}
