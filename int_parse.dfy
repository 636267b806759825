/**
 * Rust's integer parsing (`u8::from_str_radix`, `str::parse::<u8>` and
 * `str::parse::<i32>`), used by the draft lexer and the REPL's hex parser.
 * The standard library's algorithm is written out: an optional sign, then the
 * digits left to right, each checked for validity before the overflow check.
 */
module IntParse {
  import opened Wrappers
  import opened Chars

  /** `core::num::IntErrorKind`, without the variants these callers cannot produce. */
  datatype IntErrorKind = Empty | InvalidDigit | PosOverflow | NegOverflow

  /** `char::to_digit(radix)`: 0-9, then letters of either case from 10 on. */
  function ToDigit(c: char, radix: nat): (d: Option<nat>)
    requires 2 <= radix <= 36
    ensures d.Some? ==> d.value < radix
    ensures d.Some? <==> (
      (IsDigit(c) && (c as int - '0' as int) < radix)
      || ('a' <= c <= 'z' && (c as int - 'a' as int) + 10 < radix)
      || ('A' <= c <= 'Z' && (c as int - 'A' as int) + 10 < radix))
  {
    var v := if IsDigit(c) then c as int - '0' as int
      else if 'a' <= c <= 'z' then c as int - 'a' as int + 10
      else if 'A' <= c <= 'Z' then c as int - 'A' as int + 10
      else radix;
    if v < radix then Some(v) else None
  }

  predicate AllDigitsIn(s: string, radix: nat)
    requires 2 <= radix <= 36
  {
    forall i :: 0 <= i < |s| ==> ToDigit(s[i], radix).Some?
  }

  /** The digit loop: multiply, add (or subtract, for a negative number), stop at the first error. */
  function Accumulate(digits: string, radix: nat, positive: bool, acc: int, lo: int, hi: int): (r: Result<int, IntErrorKind>)
    requires 2 <= radix <= 36 && lo <= acc <= hi && (if positive then acc >= 0 else acc <= 0)
    ensures r.Ok? ==> lo <= r.value <= hi
    ensures r.Err? ==> r.error != Empty && (r.error == PosOverflow ==> positive) && (r.error == NegOverflow ==> !positive)
    decreases |digits|
  {
    if digits == [] then Ok(acc)
    else match ToDigit(digits[0], radix)
      case None => Err(InvalidDigit)
      case Some(d) =>
        Scale(acc, radix);
        var mul := acc * radix;
        if positive then
          if mul > hi || mul + d > hi then Err(PosOverflow) else Accumulate(digits[1..], radix, positive, mul + d, lo, hi)
        else
          if mul < lo || mul - d < lo then Err(NegOverflow) else Accumulate(digits[1..], radix, positive, mul - d, lo, hi)
  }

  /** `from_str_radix` for an integer type with range `lo..=hi`, signed or not. */
  function FromStrRadix(src: string, radix: nat, signed: bool, lo: int, hi: int): (r: Result<int, IntErrorKind>)
    requires 2 <= radix <= 36 && lo <= 0 < hi
    ensures r.Ok? ==> lo <= r.value <= hi
    ensures r == Err(Empty) <==> src == []
  {
    if src == [] then Err(Empty)
    else if (src[0] == '+' || src[0] == '-') && |src| == 1 then Err(InvalidDigit)
    else if src[0] == '+' then Accumulate(src[1..], radix, true, 0, lo, hi)
    else if src[0] == '-' && signed then Accumulate(src[1..], radix, false, 0, lo, hi)
    else Accumulate(src, radix, true, 0, lo, hi)
  }

  /** `u8::from_str_radix`. */
  function ParseU8(src: string, radix: nat): (r: Result<u8, IntErrorKind>)
    requires 2 <= radix <= 36
    ensures r.Err? <==> FromStrRadix(src, radix, false, 0, 0xFF).Err?
    ensures r.Ok? ==> r.value as int == FromStrRadix(src, radix, false, 0, 0xFF).value
  {
    match FromStrRadix(src, radix, false, 0, 0xFF)
    case Ok(v) => Ok(v as u8)
    case Err(e) => Err(e)
  }

  /** `str::parse::<i32>`. */
  function ParseI32(src: string): (r: Result<i32, IntErrorKind>)
    ensures r.Err? <==> FromStrRadix(src, 10, true, -0x8000_0000, 0x7FFF_FFFF).Err?
    ensures r.Ok? ==> r.value as int == FromStrRadix(src, 10, true, -0x8000_0000, 0x7FFF_FFFF).value
  {
    match FromStrRadix(src, 10, true, -0x8000_0000, 0x7FFF_FFFF)
    case Ok(v) => Ok(v as i32)
    case Err(e) => Err(e)
  }

  // ------------------------------------------------------------- properties

  /** The value of a digit string read left to right, starting from `acc`. */
  function DigitsValue(acc: int, digits: string, radix: nat): int
    requires 2 <= radix <= 36 && AllDigitsIn(digits, radix)
    decreases |digits|
  {
    if digits == [] then acc else DigitsValue(acc * radix + ToDigit(digits[0], radix).value, digits[1..], radix)
  }

  lemma Scale(a: int, radix: nat)
    requires radix >= 1
    ensures a >= 0 ==> a * radix >= a
    ensures a <= 0 ==> a * radix <= a
  {
  }

  lemma {:induction false} DigitsValueGrows(acc: int, digits: string, radix: nat)
    requires 2 <= radix <= 36 && AllDigitsIn(digits, radix) && acc >= 0
    ensures DigitsValue(acc, digits, radix) >= acc
    decreases |digits|
  {
    if digits != [] {
      var next := acc * radix + ToDigit(digits[0], radix).value;
      Scale(acc, radix);
      assert AllDigitsIn(digits[1..], radix) by {
        forall i | 0 <= i < |digits[1..]| ensures ToDigit(digits[1..][i], radix).Some? {
          assert digits[1..][i] == digits[i + 1];
        }
      }
      DigitsValueGrows(next, digits[1..], radix);
    }
  }

  /** On valid digits the loop fails exactly when the value passes `hi`, and then with PosOverflow. */
  lemma {:induction false} AccumulateDigits(digits: string, radix: nat, acc: int, lo: int, hi: int)
    requires 2 <= radix <= 36 && lo <= 0 <= acc <= hi && AllDigitsIn(digits, radix)
    ensures Accumulate(digits, radix, true, acc, lo, hi) ==
      if DigitsValue(acc, digits, radix) <= hi then Ok(DigitsValue(acc, digits, radix)) else Err(PosOverflow)
    decreases |digits|
  {
    if digits != [] {
      var d := ToDigit(digits[0], radix).value;
      var next := acc * radix + d;
      Scale(acc, radix);
      assert AllDigitsIn(digits[1..], radix) by {
        forall i | 0 <= i < |digits[1..]| ensures ToDigit(digits[1..][i], radix).Some? {
          assert digits[1..][i] == digits[i + 1];
        }
      }
      DigitsValueGrows(next, digits[1..], radix);
      if next <= hi {
        AccumulateDigits(digits[1..], radix, next, lo, hi);
      }
    }
  }

  /** A non-empty string of valid digits parses to its value, or fails with PosOverflow past `hi`. */
  lemma FromStrRadixDigits(digits: string, radix: nat, signed: bool, lo: int, hi: int)
    requires 2 <= radix <= 36 && lo <= 0 < hi && |digits| > 0 && AllDigitsIn(digits, radix)
    ensures FromStrRadix(digits, radix, signed, lo, hi) ==
      if DigitsValue(0, digits, radix) <= hi then Ok(DigitsValue(0, digits, radix)) else Err(PosOverflow)
  {
    assert ToDigit(digits[0], radix).Some?;
    AccumulateDigits(digits, radix, 0, lo, hi);
  }

  /** The negative loop subtracts: it ends at minus the value, or fails with NegOverflow below `lo`. */
  lemma {:induction false} AccumulateDigitsNeg(digits: string, radix: nat, acc: int, lo: int, hi: int)
    requires 2 <= radix <= 36 && lo <= acc <= 0 <= hi && AllDigitsIn(digits, radix)
    ensures Accumulate(digits, radix, false, acc, lo, hi) ==
      if -DigitsValue(-acc, digits, radix) >= lo then Ok(-DigitsValue(-acc, digits, radix)) else Err(NegOverflow)
    decreases |digits|
  {
    if digits != [] {
      var d := ToDigit(digits[0], radix).value;
      var next := acc * radix - d;
      assert (-acc) * radix + d == -next;
      Scale(acc, radix);
      assert AllDigitsIn(digits[1..], radix) by {
        forall i | 0 <= i < |digits[1..]| ensures ToDigit(digits[1..][i], radix).Some? {
          assert digits[1..][i] == digits[i + 1];
        }
      }
      DigitsValueGrows(-next, digits[1..], radix);
      if next >= lo {
        AccumulateDigitsNeg(digits[1..], radix, next, lo, hi);
      }
    }
  }

  /** A '-' in front of valid digits, in a signed type, gives minus their value or NegOverflow below `lo`. */
  lemma FromStrRadixNegDigits(digits: string, radix: nat, lo: int, hi: int)
    requires 2 <= radix <= 36 && lo <= 0 < hi && |digits| > 0 && AllDigitsIn(digits, radix)
    ensures FromStrRadix(['-'] + digits, radix, true, lo, hi) ==
      if -DigitsValue(0, digits, radix) >= lo then Ok(-DigitsValue(0, digits, radix)) else Err(NegOverflow)
  {
    assert (['-'] + digits)[1..] == digits;
    AccumulateDigitsNeg(digits, radix, 0, lo, hi);
  }

  /** Decimal digits are exactly the valid radix-10 digits. */
  lemma AllDigitsDecimal(s: string)
    ensures AllDigitsIn(s, 10) <==> AllDigits(s)
  {
  }

  /** A leading '+' in front of valid digits changes nothing. */
  lemma FromStrRadixPlus(digits: string, radix: nat, signed: bool, lo: int, hi: int)
    requires 2 <= radix <= 36 && lo <= 0 < hi && |digits| > 0 && AllDigitsIn(digits, radix)
    ensures FromStrRadix(['+'] + digits, radix, signed, lo, hi) == FromStrRadix(digits, radix, signed, lo, hi)
  {
    assert (['+'] + digits)[1..] == digits;
    assert ToDigit(digits[0], radix).Some?;
  }

  /** Digits of either case have the same value. */
  lemma ToDigitUpper(c: char, radix: nat)
    requires 2 <= radix <= 36
    ensures ToDigit(ToUpper(c), radix) == ToDigit(c, radix)
  {
  }

  lemma {:induction false} AccumulateUpper(digits: string, radix: nat, positive: bool, acc: int, lo: int, hi: int)
    requires 2 <= radix <= 36 && lo <= acc <= hi && (if positive then acc >= 0 else acc <= 0)
    ensures Accumulate(UpperString(digits), radix, positive, acc, lo, hi) == Accumulate(digits, radix, positive, acc, lo, hi)
    decreases |digits|
  {
    if digits != [] {
      var up := UpperString(digits);
      assert up[0] == ToUpper(digits[0]);
      assert up[1..] == UpperString(digits[1..]);
      ToDigitUpper(digits[0], radix);
      Scale(acc, radix);
      match ToDigit(digits[0], radix)
      case None =>
      case Some(d) =>
        var mul := acc * radix;
        if positive && mul <= hi && mul + d <= hi {
          AccumulateUpper(digits[1..], radix, positive, mul + d, lo, hi);
          assert Accumulate(up, radix, positive, acc, lo, hi) == Accumulate(up[1..], radix, positive, mul + d, lo, hi);
        } else if !positive && mul >= lo && mul - d >= lo {
          AccumulateUpper(digits[1..], radix, positive, mul - d, lo, hi);
          assert Accumulate(up, radix, positive, acc, lo, hi) == Accumulate(up[1..], radix, positive, mul - d, lo, hi);
        }
    }
  }

  /** Parsing is case-insensitive: upper-casing the input never changes the result. */
  lemma FromStrRadixUpper(src: string, radix: nat, signed: bool, lo: int, hi: int)
    requires 2 <= radix <= 36 && lo <= 0 < hi
    ensures FromStrRadix(UpperString(src), radix, signed, lo, hi) == FromStrRadix(src, radix, signed, lo, hi)
  {
    if src != [] {
      var up := UpperString(src);
      assert up[0] == ToUpper(src[0]);
      assert up[1..] == UpperString(src[1..]);
      AccumulateUpper(src, radix, true, 0, lo, hi);
      AccumulateUpper(src[1..], radix, true, 0, lo, hi);
      AccumulateUpper(src[1..], radix, false, 0, lo, hi);
    }
  }

  /** A lone sign is an invalid digit; a '-' in front of an unsigned number is one too. */
  lemma FromStrRadixSigns(radix: nat, lo: int, hi: int, rest: string)
    requires 2 <= radix <= 36 && lo <= 0 < hi
    ensures FromStrRadix("+", radix, false, lo, hi) == Err(InvalidDigit)
    ensures FromStrRadix("-", radix, true, lo, hi) == Err(InvalidDigit)
    ensures FromStrRadix(['-'] + rest, radix, false, lo, hi) == Err(InvalidDigit)
  {
  }
}
