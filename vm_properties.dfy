/** What `execute_instruction` and `run` do, opcode by opcode, stated on `Machine.Step`. */
module MachineProperties {
  import opened Wrappers
  import opened Instruction
  import opened Machine

  const MinI32: int := -0x8000_0000

  // ------------------------------------------------------- truncated division

  /** Division of magnitudes, with the signs given back. */
  lemma SignedDivision(a: int, b: int, ua: int, ub: int)
    requires ua >= 0 && ub > 0 && (a == ua || a == -ua) && (b == ub || b == -ub)
    ensures var q, m := ua / ub, ua % ub;
      var t := if (a == ua) == (b == ub) then q else -q;
      b * t == (if a == ua then ub * q else -(ub * q)) && ua == ub * q + m && 0 <= m < ub && 0 <= q
  {
    var q, m := ua / ub, ua % ub;
    if b == -ub {
      assert (-ub) * q == -(ub * q);
      assert (-ub) * -q == ub * q;
    } else {
      assert ub * -q == -(ub * q);
    }
  }

  /**
   * Rust's `/` and `%`: quotient and remainder recombine to the dividend, the
   * remainder is smaller than the divisor and takes the dividend's sign, and
   * the quotient is |a| / |b| rounded toward zero.
   */
  lemma {:induction false} TruncDivRem(a: int, b: int)
    requires b != 0
    ensures a == b * TruncDiv(a, b) + TruncRem(a, b)
    ensures Abs(TruncRem(a, b)) < Abs(b)
    ensures TruncRem(a, b) == if a < 0 then -(Abs(a) % Abs(b)) else Abs(a) % Abs(b)
    ensures Abs(TruncDiv(a, b)) == Abs(a) / Abs(b)
  {
    var ua: int, ub: int := Abs(a), Abs(b);
    var q: int, m: int := ua / ub, ua % ub;
    SignedDivision(a, b, ua, ub);
    var t := TruncDiv(a, b);
    assert t == if (a == ua) == (b == ub) then q else -q;
    assert Abs(t) == q;
    if a == ua {
      assert b * t == ub * q;
      assert TruncRem(a, b) == m;
    } else {
      assert b * t == -(ub * q);
      assert TruncRem(a, b) == -m;
    }
  }

  lemma QuotientBound(n: nat, d: nat)
    requires d >= 2
    ensures 2 * (n / d) <= n
  {
    assert n == d * (n / d) + n % d;
    assert d * (n / d) >= 2 * (n / d);
  }

  /** Of all `i32` divisions by a non-zero divisor, only MIN / -1 leaves the `i32` range. */
  lemma DivOverflow(a: i32, b: i32)
    requires b != 0
    ensures !InI32(TruncDiv(a, b)) <==> a == MinI32 && b == -1
  {
    var q := Abs(a) / Abs(b);
    if Abs(b) >= 2 {
      QuotientBound(Abs(a), Abs(b));
    } else {
      assert q == Abs(a);
    }
  }

  // ------------------------------------------------------------- one step

  /**
   * Which arm of `execute_instruction` runs: nothing past the end of the
   * program; otherwise the one the opcode byte names, where IGL and LABEL read
   * their opcode byte once more.
   */
  lemma StepDispatch(s: State)
    requires WellFormed(s)
    ensures s.pc >= |s.program| ==> Step(s) == Some((true, s))
    ensures s.pc < |s.program| ==>
      var op := FromByte(s.program[s.pc]);
      && (op == HLT ==> Step(s) == Some((true, s.(pc := s.pc + 1))))
      && (op == LOAD ==> Step(s) == LoadStep(s))
      && (IsArithmetic(op) ==> Step(s) == ArithmeticStep(s, op))
      && (IsComparison(op) ==> Step(s) == CompareStep(s, op))
      && (op == JMP || op == JMPF || op == JMPEQ ==> Step(s) == JumpStep(s, op))
      && (op == IGL || op == LABEL ==>
            Step(s) == if s.pc + 1 < |s.program| then Some((true, s.(pc := s.pc + 2))) else None)
  {
  }

  /**
   * LOAD r, hi, lo: defined exactly when the three operand bytes exist and r
   * names a register; it stores the 16-bit big-endian value (so hi and lo can
   * be read back from the register), changes nothing else, moves four bytes on
   * and is the one instruction after which `run` goes on.
   */
  lemma LoadEffect(s: State)
    requires WellFormed(s) && s.pc < |s.program|
    ensures LoadStep(s).Some? <==> s.pc + 3 < |s.program| && s.program[s.pc + 1] < RegisterCount
    ensures LoadStep(s).Some? ==>
      var (done, t) := LoadStep(s).value;
      var r, hi, lo := s.program[s.pc + 1], s.program[s.pc + 2], s.program[s.pc + 3];
      && !done
      && 0 <= t.registers[r] <= 0xFFFF
      && t.registers[r] / 0x100 == hi && t.registers[r] % 0x100 == lo
      && (forall i :: 0 <= i < RegisterCount && i != r ==> t.registers[i] == s.registers[i])
      && t == s.(registers := t.registers, pc := s.pc + 4)
  {
  }

  /** The three register operands of an ADD, SUB, MUL or DIV at pc are there. */
  predicate HasOperands(s: State)
    requires WellFormed(s)
  {
    s.pc + 3 < |s.program| && s.program[s.pc + 1] < RegisterCount
    && s.program[s.pc + 2] < RegisterCount && s.program[s.pc + 3] < RegisterCount
  }

  /**
   * ADD, SUB, MUL, DIV r1, r2, d are defined exactly when their three register
   * bytes are there, the divisor of a DIV is not zero, and the exact result
   * fits `i32`.
   */
  lemma ArithmeticDefined(s: State, op: Opcode)
    requires WellFormed(s) && s.pc < |s.program| && IsArithmetic(op)
    ensures ArithmeticStep(s, op).Some? <==>
      HasOperands(s) &&
      var a, b := s.registers[s.program[s.pc + 1]], s.registers[s.program[s.pc + 2]];
      (op == DIV ==> b != 0) && InI32(ArithValue(op, a, b))
  {
  }

  /**
   * After ADD, SUB, MUL, DIV r1, r2, d register d holds r1 op r2, the other
   * registers and the flag are as they were, pc is four bytes on, only DIV
   * touches the remainder, and `run` stops.
   */
  lemma ArithmeticResult(s: State, op: Opcode)
    requires WellFormed(s) && s.pc < |s.program| && IsArithmetic(op) && ArithmeticStep(s, op).Some?
    ensures HasOperands(s)
    ensures var (done, t) := ArithmeticStep(s, op).value;
      var a, b, d := s.registers[s.program[s.pc + 1]], s.registers[s.program[s.pc + 2]], s.program[s.pc + 3];
      && done
      && t.registers[d] == ArithValue(op, a, b)
      && (forall i :: 0 <= i < RegisterCount && i != d ==> t.registers[i] == s.registers[i])
      && t == s.(registers := t.registers, pc := s.pc + 4, remainder := t.remainder)
      && (op != DIV ==> t.remainder == s.remainder)
  {
  }

  /**
   * A DIV with its operands present is defined exactly when the divisor is not
   * zero and the division is not MIN / -1; the quotient q it stores leaves a
   * remainder r1 - r2 * q smaller than r2 with r1's sign, and the remainder
   * field holds that remainder `as u32`.
   */
  lemma DivEffect(s: State)
    requires WellFormed(s) && s.pc < |s.program| && HasOperands(s)
    ensures var a, b := s.registers[s.program[s.pc + 1]], s.registers[s.program[s.pc + 2]];
      ArithmeticStep(s, DIV).Some? <==> b != 0 && !(a == MinI32 && b == -1)
    ensures ArithmeticStep(s, DIV).Some? ==>
      var a: int, b: int := s.registers[s.program[s.pc + 1]], s.registers[s.program[s.pc + 2]];
      var t := ArithmeticStep(s, DIV).value.1;
      var r := a - b * t.registers[s.program[s.pc + 3]];
      && Abs(r) < Abs(b) && (r == 0 || (r < 0 <==> a < 0))
      && t.remainder == ToU32(r)
  {
    var a, b := s.registers[s.program[s.pc + 1]], s.registers[s.program[s.pc + 2]];
    ArithmeticDefined(s, DIV);
    if b != 0 {
      DivOverflow(a, b);
      TruncDivRem(a, b);
      if ArithmeticStep(s, DIV).Some? {
        ArithmeticResult(s, DIV);
      }
    }
  }

  /**
   * EQ, NEQ, GT, LT, GTQ, LTQ r1, r2, _: defined exactly when the three operand
   * bytes exist and r1, r2 name registers; the flag becomes the comparison,
   * nothing else but pc changes, and `run` stops.
   */
  lemma CompareEffect(s: State, op: Opcode)
    requires WellFormed(s) && s.pc < |s.program| && IsComparison(op)
    ensures CompareStep(s, op).Some? <==>
      s.pc + 3 < |s.program| && s.program[s.pc + 1] < RegisterCount && s.program[s.pc + 2] < RegisterCount
    ensures CompareStep(s, op).Some? ==>
      var a, b := s.registers[s.program[s.pc + 1]], s.registers[s.program[s.pc + 2]];
      var flag :=
        if op == EQ then a == b
        else if op == NEQ then a != b
        else if op == GT then a > b
        else if op == LT then a < b
        else if op == GTQ then a >= b
        else a <= b;
      CompareStep(s, op) == Some((true, s.(equalFlag := flag, pc := s.pc + 4)))
  {
  }

  /**
   * The jumps need their register byte. JMP r sets pc to the register's value
   * as `usize` (a negative value wraps to 2^64 plus it); JMPF r adds that to
   * the pc past its operand and panics exactly when the addition overflows
   * `usize`; JMPEQ r jumps like JMP when the flag is set and otherwise moves
   * past its operand. Nothing else changes, and `run` stops.
   */
  lemma JumpEffect(s: State, op: Opcode)
    requires WellFormed(s) && s.pc < |s.program| && (op == JMP || op == JMPF || op == JMPEQ)
    ensures JumpStep(s, op).Some? ==> RegisterAt(s, s.pc + 1).Some?
    ensures RegisterAt(s, s.pc + 1).Some? ==>
      var v := RegisterAt(s, s.pc + 1).value;
      var target: int := if v >= 0 then v else v + UsizeModulus;
      if op == JMP then JumpStep(s, op) == Some((true, s.(pc := target)))
      else if op == JMPF then
        && (JumpStep(s, op).Some? <==> s.pc + 2 + target < UsizeModulus)
        && (JumpStep(s, op).Some? ==> JumpStep(s, op) == Some((true, s.(pc := s.pc + 2 + target))))
      else JumpStep(s, op) == Some((true, s.(pc := if s.equalFlag then target else s.pc + 2)))
  {
  }

  /** A JMP to a negative register value lands past any program shorter than 2^63 bytes, so the next step stops. */
  lemma NegativeJumpStops(s: State)
    requires WellFormed(s) && s.pc < |s.program| && FromByte(s.program[s.pc]) == JMP && |s.program| <= 0x8000_0000_0000_0000
    requires RegisterAt(s, s.pc + 1).Some? && RegisterAt(s, s.pc + 1).value < 0
    ensures Step(s).Some? && Step(s).value.1.pc >= |s.program|
    ensures Step(Step(s).value.1) == Some((true, Step(s).value.1))
  {
    StepDispatch(s);
    JumpEffect(s, JMP);
  }

  // ------------------------------------------------------------------ run

  /** `run` keeps the program and the shape of the machine. */
  lemma {:induction false} RunKeepsProgram(s: State)
    requires WellFormed(s) && RunFrom(s).Some?
    ensures WellFormed(RunFrom(s).value) && RunFrom(s).value.program == s.program
    decreases |s.program| - s.pc
  {
    var (done, t) := Step(s).value;
    if !done {
      RunKeepsProgram(t);
    }
  }

  /** `run` is a run of LOADs followed by one other step: while the next instruction is a LOAD it goes on, and any other step is the last. */
  lemma RunUnfolds(s: State)
    requires WellFormed(s) && Step(s).Some?
    ensures s.pc < |s.program| && FromByte(s.program[s.pc]) == LOAD ==> RunFrom(s) == RunFrom(Step(s).value.1)
    ensures !(s.pc < |s.program| && FromByte(s.program[s.pc]) == LOAD) ==> RunFrom(s) == Some(Step(s).value.1)
  {
    StepDispatch(s);
    if s.pc < |s.program| && FromByte(s.program[s.pc]) == LOAD {
      LoadEffect(s);
    }
  }

  // ------------------------------------------------------------- examples

  /** A new machine has zero registers, and with no program `run` stops at once. */
  lemma NewMachineExample()
    ensures Initial().registers[0] == 0
    ensures RunFrom(Initial()) == Some(Initial())
  {
  }

  /** [0, 0, 0, 0] is HLT: `run` stops with pc 1. */
  lemma HaltProgramExample()
    ensures var s := Initial().(program := [0, 0, 0, 0]);
      RunFrom(s) == Some(s.(pc := 1))
  {
    var s := Initial().(program := [0, 0, 0, 0]);
    assert FromByte(s.program[0]) == HLT;
    StepDispatch(s);
  }

  /** [2, 0, 0, 0] is ADD r0, r0, r0: `run` stores 0 + 0 and stops with pc 4. */
  lemma AddProgramExample()
    ensures var s := Initial().(program := [2, 0, 0, 0]);
      RunFrom(s) == Some(s.(pc := 4))
  {
    var s := Initial().(program := [2, 0, 0, 0]);
    assert FromByte(s.program[0]) == ADD;
    StepDispatch(s);
    assert s.registers[0 := 0] == s.registers;
  }

  /** [5, 0, 0, 0] is DIV r0, r0, r0 with r0 = 0: the division by zero panics. */
  lemma DivByZeroExample()
    ensures RunFrom(Initial().(program := [5, 0, 0, 0])).None?
  {
    var s := Initial().(program := [5, 0, 0, 0]);
    assert FromByte(s.program[0]) == DIV;
    StepDispatch(s);
  }

  /** [1, 0, 4, 0, 1, 0, 1, 0] is LOAD r0, 1024 then LOAD r0, 256: `run` leaves r0 = 256 at the end of the program. */
  lemma LoadProgramExample()
    ensures var s := Initial().(program := [1, 0, 4, 0, 1, 0, 1, 0]);
      RunFrom(s) == Some(s.(registers := s.registers[0 := 256], pc := 8))
  {
    var s := Initial().(program := [1, 0, 4, 0, 1, 0, 1, 0]);
    var s1 := s.(registers := s.registers[0 := 1024], pc := 4);
    var s2 := s.(registers := s.registers[0 := 256], pc := 8);
    assert FromByte(s.program[0]) == LOAD;
    StepDispatch(s);
    assert Step(s) == Some((false, s1));
    assert FromByte(s1.program[4]) == LOAD;
    StepDispatch(s1);
    assert s1.registers[0 := 256] == s2.registers;
    assert Step(s1) == Some((false, s2));
    StepDispatch(s2);
  }

  const AluProgram: seq<u8> := [1, 0, 0, 100, 1, 1, 1, 30, 5, 0, 1, 0]

  /** The last instruction of `AluProgram`, DIV r0, r1, r0, with r0 = 100 and r1 = 286. */
  lemma AluDivides(s: State)
    requires WellFormed(s) && s.program == AluProgram && s.pc == 8
    requires s.registers[0] == 100 && s.registers[1] == 286
    ensures var r := RunFrom(s);
      r.Some? && r.value.registers[0] == 0 && r.value.registers[1] == 286 && r.value.remainder == 100 && r.value.pc == 12
  {
    assert FromByte(s.program[8]) == DIV;
    StepDispatch(s);
    assert HasOperands(s) && ArithValue(DIV, 100, 286) == 0;
    ArithmeticDefined(s, DIV);
    ArithmeticResult(s, DIV);
    DivEffect(s);
  }

  /**
   * `AluProgram` loads 100 into r0 and 286 into r1 and divides them:
   * `run` leaves the quotient 0 in r0 and 100 in the remainder.
   */
  lemma AluProgramExample()
    ensures var r := RunFrom(Initial().(program := AluProgram));
      r.Some? && r.value.registers[0] == 0 && r.value.registers[1] == 286 && r.value.remainder == 100 && r.value.pc == 12
  {
    var s := Initial().(program := AluProgram);
    var s1 := s.(registers := s.registers[0 := 100], pc := 4);
    var s2 := s1.(registers := s1.registers[1 := 286], pc := 8);
    assert FromByte(s.program[0]) == LOAD;
    StepDispatch(s);
    assert Step(s) == Some((false, s1));
    assert FromByte(s1.program[4]) == LOAD;
    StepDispatch(s1);
    assert Step(s1) == Some((false, s2));
    AluDivides(s2);
  }

  /** [6, 0, 0, 0] with r0 = 1 is JMP r0: one step sets pc to 1. */
  lemma JmpProgramExample()
    ensures var s := Initial().(registers := Initial().registers[0 := 1], program := [6, 0, 0, 0]);
      Step(s) == Some((true, s.(pc := 1)))
  {
    var s := Initial().(registers := Initial().registers[0 := 1], program := [6, 0, 0, 0]);
    assert FromByte(s.program[0]) == JMP;
    StepDispatch(s);
  }

  /** [14, 0, 0, 0, 1, 0, 1, 0] with r0 = 2 and the flag set is JMPEQ r0: one step sets pc to 2. */
  lemma JmpeqProgramExample()
    ensures var s := Initial().(registers := Initial().registers[0 := 2], program := [14, 0, 0, 0, 1, 0, 1, 0], equalFlag := true);
      Step(s) == Some((true, s.(pc := 2)))
  {
    var s := Initial().(registers := Initial().registers[0 := 2], program := [14, 0, 0, 0, 1, 0, 1, 0], equalFlag := true);
    assert FromByte(s.program[0]) == JMPEQ;
    StepDispatch(s);
  }
}
