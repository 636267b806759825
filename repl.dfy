/**
 * The REPL's hex byte parser: the line is split at every space and each piece
 * is read as a base-16 `u8`; the first piece that fails decides the error.
 *
 * `ParseHex` is the loop, proved against `ParseHexSpec`, a function of the
 * input; splitting, the per-piece parse and the round trip from bytes back to
 * text are lemmas about that function.
 */
module Repl {
  import opened Wrappers
  import opened Chars
  import opened IntParse

  // ------------------------------------------------------------ splitting

  /** Length of the first piece: the index of the first separator, or the whole length. */
  function PieceEnd(s: string, sep: char): (n: nat)
    ensures n <= |s|
    ensures forall i :: 0 <= i < n ==> s[i] != sep
    ensures n == |s| || s[n] == sep
  {
    if s == [] || s[0] == sep then 0 else 1 + PieceEnd(s[1..], sep)
  }

  /** `str::split` at a single character: the pieces between separators, empty ones included. */
  function Split(s: string, sep: char): (pieces: seq<string>)
    ensures |pieces| >= 1
    ensures forall i :: 0 <= i < |pieces| ==> sep !in pieces[i]
    decreases |s|
  {
    var n := PieceEnd(s, sep);
    if n == |s| then [s] else [s[..n]] + Split(s[n + 1..], sep)
  }

  /** The pieces glued back together with one separator between neighbours. */
  function Join(pieces: seq<string>, sep: char): string
    requires |pieces| >= 1
  {
    if |pieces| == 1 then pieces[0] else pieces[0] + [sep] + Join(pieces[1..], sep)
  }

  /** Splitting loses nothing: joining the pieces gives the input back. */
  lemma {:induction false} JoinSplit(s: string, sep: char)
    ensures Join(Split(s, sep), sep) == s
    decreases |s|
  {
    var n := PieceEnd(s, sep);
    if n < |s| {
      JoinSplit(s[n + 1..], sep);
      assert s == s[..n] + [sep] + s[n + 1..];
    }
  }

  /** Pieces free of the separator are exactly what splitting their join gives. */
  lemma {:induction false} SplitJoin(pieces: seq<string>, sep: char)
    requires |pieces| >= 1
    requires forall i :: 0 <= i < |pieces| ==> sep !in pieces[i]
    ensures Split(Join(pieces, sep), sep) == pieces
    decreases |pieces|
  {
    var s := Join(pieces, sep);
    var p := pieces[0];
    PieceEndStopsAt(p, sep, if |pieces| == 1 then [] else [sep] + Join(pieces[1..], sep));
    if |pieces| > 1 {
      assert s == p + ([sep] + Join(pieces[1..], sep));
      assert s[..|p|] == p;
      assert s[|p| + 1..] == Join(pieces[1..], sep);
      SplitJoin(pieces[1..], sep);
    }
  }

  /** The first piece of `p + rest` is `p`, when `rest` is empty or starts with the separator. */
  lemma {:induction false} PieceEndStopsAt(p: string, sep: char, rest: string)
    requires sep !in p
    requires rest == [] || rest[0] == sep
    ensures PieceEnd(p + rest, sep) == |p|
    decreases |p|
  {
    if p != [] {
      assert (p + rest)[0] == p[0];
      assert (p + rest)[1..] == p[1..] + rest;
      PieceEndStopsAt(p[1..], sep, rest);
    }
  }

  /** Every piece upper-cased. */
  function UpperAll(pieces: seq<string>): (r: seq<string>)
    ensures |r| == |pieces|
  {
    if pieces == [] then [] else [UpperString(pieces[0])] + UpperAll(pieces[1..])
  }

  /** Splitting commutes with upper-casing when the separator is not a letter. */
  lemma {:induction false} SplitUpper(s: string, sep: char)
    requires !IsAsciiAlpha(sep)
    ensures Split(UpperString(s), sep) == UpperAll(Split(s, sep))
    decreases |s|
  {
    var up := UpperString(s);
    var n := PieceEnd(s, sep);
    PieceEndUpper(s, sep);
    if n < |s| {
      var tail := s[n + 1..];
      UpperStringSlice(s, 0, n);
      UpperStringSlice(s, n + 1, |s|);
      SplitUpper(tail, sep);
      assert Split(up, sep) == [up[..n]] + Split(up[n + 1..], sep);
      assert up[..n] == UpperString(s[..n]) && up[n + 1..] == UpperString(tail);
      var p := [s[..n]] + Split(tail, sep);
      assert Split(s, sep) == p;
      assert p[1..] == Split(tail, sep);
      assert UpperAll(p) == [UpperString(s[..n])] + UpperAll(Split(tail, sep));
    } else {
      assert up[..n] == up;
    }
  }

  /** Upper-casing keeps the separators where they were. */
  lemma {:induction false} PieceEndUpper(s: string, sep: char)
    requires !IsAsciiAlpha(sep)
    ensures PieceEnd(UpperString(s), sep) == PieceEnd(s, sep)
    decreases |s|
  {
    if s != [] {
      var up := UpperString(s);
      assert up[0] == ToUpper(s[0]);
      assert up[1..] == UpperString(s[1..]);
      PieceEndUpper(s[1..], sep);
    }
  }

  lemma UpperStringSlice(s: string, i: nat, j: nat)
    requires i <= j <= |s|
    ensures UpperString(s)[i..j] == UpperString(s[i..j])
  {
    var a, b := UpperString(s)[i..j], UpperString(s[i..j]);
    assert forall k :: 0 <= k < j - i ==> a[k] == ToUpper(s[i + k]) == b[k];
  }

  // ------------------------------------------------------------ the parser

  /** The pieces read one by one as base-16 `u8`s, stopping at the first error. */
  function ParsePieces(pieces: seq<string>): Result<seq<u8>, IntErrorKind>
    decreases |pieces|
  {
    if pieces == [] then Ok([])
    else match ParseU8(pieces[0], 16)
      case Err(e) => Err(e)
      case Ok(b) =>
        match ParsePieces(pieces[1..])
        case Ok(bs) => Ok([b] + bs)
        case Err(e) => Err(e)
  }

  /** `REPL::parse_hex` as a function of the input line. */
  function ParseHexSpec(input: string): Result<seq<u8>, IntErrorKind> {
    ParsePieces(Split(input, ' '))
  }

  /** Success exactly when every piece parses; then one byte per piece, in order. */
  lemma {:induction false} ParsePiecesOk(pieces: seq<string>)
    ensures ParsePieces(pieces).Ok? <==> forall i :: 0 <= i < |pieces| ==> ParseU8(pieces[i], 16).Ok?
    ensures ParsePieces(pieces).Ok? ==>
      |ParsePieces(pieces).value| == |pieces|
      && forall i :: 0 <= i < |pieces| ==> ParsePieces(pieces).value[i] == ParseU8(pieces[i], 16).value
    decreases |pieces|
  {
    if pieces != [] {
      ParsePiecesOk(pieces[1..]);
      assert forall i :: 1 <= i < |pieces| ==> pieces[1..][i - 1] == pieces[i];
      if ParsePieces(pieces).Ok? {
        var r := ParsePieces(pieces).value;
        assert r == [ParseU8(pieces[0], 16).value] + ParsePieces(pieces[1..]).value;
        forall i | 1 <= i < |pieces|
          ensures r[i] == ParseU8(pieces[i], 16).value
        {
          assert r[i] == ParsePieces(pieces[1..]).value[i - 1];
        }
      }
    }
  }

  /** The error is that of the first piece that fails, whatever follows it. */
  lemma {:induction false} ParsePiecesFirstError(pieces: seq<string>, k: nat)
    requires k < |pieces|
    requires forall j :: 0 <= j < k ==> ParseU8(pieces[j], 16).Ok?
    requires ParseU8(pieces[k], 16).Err?
    ensures ParsePieces(pieces) == Err(ParseU8(pieces[k], 16).error)
    decreases k
  {
    if k > 0 {
      assert forall j :: 0 <= j < k - 1 ==> pieces[1..][j] == pieces[j + 1];
      ParsePiecesFirstError(pieces[1..], k - 1);
    }
  }

  /**
   * `REPL::parse_hex`: pushes the bytes of the pieces in order and returns at
   * the first piece that does not parse. It reads and writes none of the REPL's
   * fields, so it is modelled without them.
   */
  method ParseHex(input: string) returns (r: Result<seq<u8>, IntErrorKind>)
    ensures r == ParseHexSpec(input)
  {
    var split := Split(input, ' ');
    var results: seq<u8> := [];
    for i := 0 to |split|
      invariant forall j :: 0 <= j < i ==> ParseU8(split[j], 16).Ok?
      invariant |results| == i
      invariant forall j :: 0 <= j < i ==> results[j] == ParseU8(split[j], 16).value
    {
      var byte := ParseU8(split[i], 16);
      match byte
      case Ok(b) =>
        results := results + [b];
      case Err(e) =>
        ParsePiecesFirstError(split, i);
        return Err(e);
    }
    ParsePiecesOk(split);
    assert results == ParsePieces(split).value;
    return Ok(results);
  }

  // ------------------------------------------------------------ properties

  /** `ParseHexSpec` succeeds exactly when every space-separated piece is a base-16 `u8`, one byte per piece. */
  lemma ParseHexPieces(input: string)
    ensures ParseHexSpec(input).Ok? <==> forall i :: 0 <= i < |Split(input, ' ')| ==> ParseU8(Split(input, ' ')[i], 16).Ok?
    ensures ParseHexSpec(input).Ok? ==>
      |ParseHexSpec(input).value| == |Split(input, ' ')|
      && forall i :: 0 <= i < |Split(input, ' ')| ==> ParseHexSpec(input).value[i] == ParseU8(Split(input, ' ')[i], 16).value
  {
    assert ParseHexSpec(input) == ParsePieces(Split(input, ' '));
    ParsePiecesOk(Split(input, ' '));
  }

  /** An empty piece (empty input, a leading, trailing or doubled space) makes the whole line fail. */
  lemma EmptyPieceFails(input: string, k: nat)
    requires k < |Split(input, ' ')| && Split(input, ' ')[k] == []
    ensures ParseHexSpec(input).Err?
  {
    ParsePiecesOk(Split(input, ' '));
  }

  /** Upper- and lower-case hex digits parse alike. */
  lemma ParseHexUpper(input: string)
    ensures ParseHexSpec(UpperString(input)) == ParseHexSpec(input)
  {
    SplitUpper(input, ' ');
    ParsePiecesUpper(Split(input, ' '));
  }

  lemma {:induction false} ParsePiecesUpper(pieces: seq<string>)
    ensures ParsePieces(UpperAll(pieces)) == ParsePieces(pieces)
    decreases |pieces|
  {
    if pieces != [] {
      var q := UpperAll(pieces);
      assert q[0] == UpperString(pieces[0]) && q[1..] == UpperAll(pieces[1..]);
      FromStrRadixUpper(pieces[0], 16, false, 0, 0xFF);
      ParsePiecesUpper(pieces[1..]);
    }
  }

  // ------------------------------------------------------------ the round trip

  /** The lower-case hex digit of a value below 16. */
  function HexDigit(n: nat): (c: char)
    requires n < 16
    ensures ToDigit(c, 16) == Some(n)
  {
    if n < 10 then ('0' as int + n) as char else ('a' as int + n - 10) as char
  }

  /** A byte as two hex digits, high nibble first. */
  function HexByte(b: u8): (s: string)
    ensures |s| == 2 && ' ' !in s
  {
    [HexDigit(b / 16), HexDigit(b % 16)]
  }

  /** Bytes written as hex pairs separated by single spaces. */
  function FormatHex(bytes: seq<u8>): string
    requires |bytes| >= 1
  {
    Join(seq(|bytes|, i requires 0 <= i < |bytes| => HexByte(bytes[i])), ' ')
  }

  /** Two hex digits read back as the byte they were written from. */
  lemma HexByteParses(b: u8)
    ensures ParseU8(HexByte(b), 16) == Ok(b)
  {
    var s := HexByte(b);
    assert AllDigitsIn(s, 16);
    assert s[1..] == [s[1]];
    var hi, lo := b / 16, b % 16;
    assert DigitsValue(0, s, 16) == DigitsValue(hi, [s[1]], 16);
    assert [s[1]][1..] == [];
    assert DigitsValue(hi, [s[1]], 16) == DigitsValue(hi * 16 + lo, [], 16);
    assert DigitsValue(0, s, 16) == b;
    FromStrRadixDigits(s, 16, false, 0, 0xFF);
  }

  /** Every non-empty byte string written in hex parses back to itself. */
  lemma FormatHexRoundTrip(bytes: seq<u8>)
    requires |bytes| >= 1
    ensures ParseHexSpec(FormatHex(bytes)) == Ok(bytes)
  {
    var pieces := seq(|bytes|, i requires 0 <= i < |bytes| => HexByte(bytes[i]));
    SplitJoin(pieces, ' ');
    forall i | 0 <= i < |bytes|
      ensures ParseU8(pieces[i], 16) == Ok(bytes[i])
    {
      HexByteParses(bytes[i]);
    }
    ParsePiecesOk(pieces);
    assert ParseHexSpec(FormatHex(bytes)) == ParsePieces(pieces);
    assert ParsePieces(pieces).value == bytes;
  }

  // ------------------------------------------------------------ examples

  /** Empty input is a single empty piece, which fails with `Empty`. */
  lemma EmptyInputExample()
    ensures ParseHexSpec("") == Err(Empty)
  {
    assert Split("", ' ') == [""];
  }

  /** A doubled space leaves an empty piece between two good ones: the line fails with `Empty`. */
  lemma DoubledSpaceExample()
    ensures ParseHexSpec("0a  1f") == Err(Empty)
  {
    var pieces := ["0a", "", "1f"];
    assert Join(pieces, ' ') == "0a  1f";
    SplitJoin(pieces, ' ');
    HexByteParses(10);
    assert HexByte(10) == "0a";
    ParsePiecesFirstError(pieces, 1);
  }

  /** A piece above 0xFF fails with `PosOverflow`. */
  lemma OverflowExample()
    ensures ParseHexSpec("ff 100") == Err(PosOverflow)
  {
    var pieces := ["ff", "100"];
    assert Join(pieces, ' ') == "ff 100";
    SplitJoin(pieces, ' ');
    HexByteParses(255);
    assert HexByte(255) == "ff";
    var big := "100";
    assert AllDigitsIn(big, 16);
    assert DigitsValue(0, big, 16) == 256 by {
      assert big[1..] == "00" && big[1..][1..] == "0" && big[1..][1..][1..] == [];
    }
    FromStrRadixDigits(big, 16, false, 0, 0xFF);
    ParsePiecesFirstError(pieces, 1);
  }

  /** A leading '+' is accepted in front of a piece's digits. */
  lemma PlusSignExample()
    ensures ParseHexSpec("+ff") == Ok([255])
  {
    assert Split("+ff", ' ') == ["+ff"] by {
      assert PieceEnd("+ff", ' ') == 3;
    }
    HexByteParses(255);
    assert HexByte(255) == "ff";
    assert AllDigitsIn("ff", 16);
    FromStrRadixPlus("ff", 16, false, 0, 0xFF);
    assert ['+'] + "ff" == "+ff";
    assert ParseU8("+ff", 16) == Ok(255);
    ParsePiecesOk(["+ff"]);
    var r := ParsePieces(["+ff"]);
    assert r.Ok? && |r.value| == 1 && r.value[0] == 255;
    assert r.value == [255];
    assert ParseHexSpec("+ff") == r;
  }
}
