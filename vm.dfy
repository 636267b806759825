/**
 * The register VM: 32 `i32` registers, a byte program, a program counter, the
 * remainder of the last division and the flag the comparisons set.
 *
 * `Step` is `execute_instruction` on a value of the machine state, with None
 * where the Rust code panics (a read past the program, a register index of 32
 * or more, an `i32` overflow, a division by zero, a `usize` overflow of the
 * program counter). The class `VM` is the mutable machine; its methods are
 * proved against `Step` and `Run`.
 */
module Machine {
  import opened Wrappers
  import opened Instruction

  const RegisterCount: nat := 32

  /** 2^64: `usize` on a 64-bit target, and a bound on any `Vec`'s length. */
  const UsizeModulus: int := 0x1_0000_0000_0000_0000

  datatype State = State(registers: seq<i32>, pc: usize, program: seq<u8>, remainder: u32, equalFlag: bool)

  /** The shape every VM has: 32 registers, and a program whose length fits `usize`. */
  predicate WellFormed(s: State) {
    |s.registers| == RegisterCount && |s.program| < UsizeModulus
  }

  /** `VM::new`. */
  function Initial(): (s: State)
    ensures WellFormed(s)
  {
    State(seq(RegisterCount, _ => 0), 0, [], 0, false)
  }

  // ------------------------------------------------------------ integer semantics

  function Abs(x: int): nat {
    if x < 0 then -x else x
  }

  /** Rust's `/` on `i32`: the quotient truncated toward zero. */
  function TruncDiv(a: int, b: int): int
    requires b != 0
  {
    var q := Abs(a) / Abs(b);
    if (a < 0) == (b < 0) then q else -q
  }

  /** Rust's `%` on `i32`: what is left after the truncated quotient. */
  function TruncRem(a: int, b: int): int
    requires b != 0
  {
    a - b * TruncDiv(a, b)
  }

  /** `as i32` on the unsigned value of a `u16`, and the range checks of `+`, `-`, `*`, `/` on `i32`. */
  predicate InI32(x: int) {
    -0x8000_0000 <= x < 0x8000_0000
  }

  /** `as u32` on an `i32`: the value modulo 2^32. */
  function ToU32(x: int): u32 {
    x % 0x1_0000_0000
  }

  /** `as usize` on an `i32`: sign extension to 64 bits, i.e. the value modulo 2^64. */
  function ToUsize(x: i32): usize {
    if x >= 0 then x else x + UsizeModulus
  }

  // ------------------------------------------------------------------ opcodes

  predicate IsArithmetic(op: Opcode) {
    op == ADD || op == SUB || op == MUL || op == DIV
  }

  predicate IsComparison(op: Opcode) {
    op == EQ || op == NEQ || op == GT || op == LT || op == GTQ || op == LTQ
  }

  /** The value ADD, SUB, MUL and DIV compute, before the `i32` overflow check. */
  function ArithValue(op: Opcode, a: int, b: int): int
    requires IsArithmetic(op) && (op == DIV ==> b != 0)
  {
    match op
    case ADD => a + b
    case SUB => a - b
    case MUL => a * b
    case _ => TruncDiv(a, b)
  }

  /** The flag EQ, NEQ, GT, LT, GTQ and LTQ set. */
  function Compare(op: Opcode, a: int, b: int): bool
    requires IsComparison(op)
  {
    match op
    case EQ => a == b
    case NEQ => a != b
    case GT => a > b
    case LT => a < b
    case GTQ => a >= b
    case _ => a <= b
  }

  /** The register the program byte at `at` names, when that byte exists and is below 32. */
  function RegisterAt(s: State, at: nat): (r: Option<i32>)
    requires WellFormed(s)
    ensures r.Some? <==> at < |s.program| && s.program[at] < RegisterCount
  {
    if at < |s.program| && s.program[at] < RegisterCount then Some(s.registers[s.program[at]]) else None
  }

  // ----------------------------------------------------- one instruction, by group

  /** LOAD r, hi, lo: registers[r] := hi * 256 + lo; the only instruction that lets `run` go on. */
  function LoadStep(s: State): Option<(bool, State)>
    requires WellFormed(s) && s.pc < |s.program|
  {
    var p, pc := s.program, s.pc;
    if pc + 3 < |p| && p[pc + 1] < RegisterCount then
      Some((false, s.(registers := s.registers[p[pc + 1] := p[pc + 2] as int * 0x100 + p[pc + 3] as int], pc := pc + 4)))
    else None
  }

  /** ADD, SUB, MUL, DIV r1, r2, d: registers[d] := r1 op r2; DIV also sets the remainder. */
  function ArithmeticStep(s: State, op: Opcode): Option<(bool, State)>
    requires WellFormed(s) && s.pc < |s.program| && IsArithmetic(op)
  {
    var p, pc := s.program, s.pc;
    if pc + 3 < |p| && p[pc + 1] < RegisterCount && p[pc + 2] < RegisterCount && p[pc + 3] < RegisterCount then
      var a, b := s.registers[p[pc + 1]], s.registers[p[pc + 2]];
      if (op == DIV ==> b != 0) && InI32(ArithValue(op, a, b)) then
        var remainder := if op == DIV then ToU32(TruncRem(a, b)) else s.remainder;
        Some((true, s.(registers := s.registers[p[pc + 3] := ArithValue(op, a, b)], pc := pc + 4,
                       remainder := remainder)))
      else None
    else None
  }

  /** EQ, NEQ, GT, LT, GTQ, LTQ r1, r2, _: the flag := r1 cmp r2; the third byte is read and ignored. */
  function CompareStep(s: State, op: Opcode): Option<(bool, State)>
    requires WellFormed(s) && s.pc < |s.program| && IsComparison(op)
  {
    var p, pc := s.program, s.pc;
    if pc + 3 < |p| && p[pc + 1] < RegisterCount && p[pc + 2] < RegisterCount then
      var a, b := s.registers[p[pc + 1]], s.registers[p[pc + 2]];
      Some((true, s.(equalFlag := Compare(op, a, b), pc := pc + 4)))
    else None
  }

  /** JMP r: pc := r; JMPF r: pc := pc + 2 + r; JMPEQ r: pc := r if the flag is set, else past the operand. */
  function JumpStep(s: State, op: Opcode): Option<(bool, State)>
    requires WellFormed(s) && s.pc < |s.program| && (op == JMP || op == JMPF || op == JMPEQ)
  {
    var pc := s.pc;
    match RegisterAt(s, pc + 1)
    case None => None
    case Some(v) =>
      if op == JMP then Some((true, s.(pc := ToUsize(v))))
      else if op == JMPF then
        if pc + 2 + ToUsize(v) < UsizeModulus then Some((true, s.(pc := pc + 2 + ToUsize(v)))) else None
      else if s.equalFlag then Some((true, s.(pc := ToUsize(v))))
      else Some((true, s.(pc := pc + 2)))
  }

  /**
   * `execute_instruction`: whether `run` should stop, and the new state. A step
   * keeps the shape of the state and the program, and only a LOAD, four bytes
   * long, lets `run` go on.
   */
  function Step(s: State): (r: Option<(bool, State)>)
    requires WellFormed(s)
    ensures r.Some? ==> WellFormed(r.value.1) && r.value.1.program == s.program
    ensures r.Some? && !r.value.0 ==>
      s.pc + 4 <= |s.program| && FromByte(s.program[s.pc]) == LOAD && r.value.1.pc == s.pc + 4
  {
    if s.pc >= |s.program| then Some((true, s))
    else
      var op := FromByte(s.program[s.pc]);
      if op == HLT then Some((true, s.(pc := s.pc + 1)))
      else if op == LOAD then LoadStep(s)
      else if IsArithmetic(op) then ArithmeticStep(s, op)
      else if IsComparison(op) then CompareStep(s, op)
      else if op == JMP || op == JMPF || op == JMPEQ then JumpStep(s, op)
      else if s.pc + 1 < |s.program| then Some((true, s.(pc := s.pc + 2)))
      else None
  }

  /** `run`: steps until one returns true; None if a step panics. */
  function RunFrom(s: State): Option<State>
    requires WellFormed(s)
    decreases |s.program| - s.pc
  {
    match Step(s)
    case None => None
    case Some((done, t)) => if done then Some(t) else RunFrom(t)
  }

  /** `VM`: the machine whose `execute_instruction` and `run` update its fields in place. */
  class VM {
    const registers: array<i32>
    var pc: usize
    var program: seq<u8>
    var remainder: u32
    var equalFlag: bool

    predicate Valid()
      reads this
    {
      registers.Length == RegisterCount && |program| < UsizeModulus
    }

    /** The machine as a value. */
    function AsState(): (s: State)
      reads this, registers
      ensures Valid() ==> WellFormed(s)
    {
      State(registers[..], pc, program, remainder, equalFlag)
    }

    /** `VM::new`: all registers zero, no program. */
    constructor ()
      ensures Valid() && AsState() == Initial() && fresh(registers)
    {
      registers := new i32[RegisterCount](_ => 0);
      pc := 0;
      program := [];
      remainder := 0;
      equalFlag := false;
      new;
      assert registers[..] == seq(RegisterCount, _ => 0);
    }

    /** `decode_opcode`: the opcode at `pc`, which moves past it. */
    method DecodeOpcode() returns (op: Opcode)
      requires Valid() && pc < |program|
      modifies this
      ensures op == FromByte(old(program[pc]))
      ensures Valid() && AsState() == old(AsState()).(pc := old(pc) + 1)
    {
      op := FromByte(program[pc]);
      pc := pc + 1;
    }

    /** `next_8_bits`: the byte at `pc`, which moves past it. */
    method Next8Bits() returns (b: u8)
      requires Valid() && pc < |program|
      modifies this
      ensures b == old(program[pc])
      ensures Valid() && AsState() == old(AsState()).(pc := old(pc) + 1)
    {
      b := program[pc];
      pc := pc + 1;
    }

    /** `next_16_bits`: the two bytes at `pc`, big-endian (`hi << 8 | lo`), which it moves past. */
    method Next16Bits() returns (v: u16)
      requires Valid() && pc + 1 < |program|
      modifies this
      ensures v == old(program[pc]) as int * 0x100 + old(program[pc + 1]) as int
      ensures Valid() && AsState() == old(AsState()).(pc := old(pc) + 2)
    {
      v := program[pc] as int * 0x100 + program[pc + 1] as int;
      pc := pc + 2;
    }

    /** `add_byte`: appends one byte to the program (`Vec::push`, which needs room for it). */
    method AddByte(b: u8)
      requires Valid() && |program| + 1 < UsizeModulus
      modifies this
      ensures Valid() && AsState() == old(AsState()).(program := old(program) + [b])
    {
      program := program + [b];
    }

    /*
     * The arms of `execute_instruction`, each entered with `pc` just past the
     * opcode byte and proved against the step of the state `s` before it.
     */

    method ExecuteLoad(ghost s: State) returns (done: bool)
      requires Valid() && WellFormed(s) && s.pc < |s.program| && AsState() == s.(pc := s.pc + 1)
      requires LoadStep(s).Some?
      modifies this, registers
      ensures Valid() && (done, AsState()) == LoadStep(s).value
    {
      var register := Next8Bits();
      var number := Next16Bits();
      registers[register] := number;
      return false;
    }

    method ExecuteArithmetic(ghost s: State, op: Opcode) returns (done: bool)
      requires Valid() && WellFormed(s) && s.pc < |s.program| && AsState() == s.(pc := s.pc + 1)
      requires IsArithmetic(op) && ArithmeticStep(s, op).Some?
      modifies this, registers
      ensures Valid() && (done, AsState()) == ArithmeticStep(s, op).value
    {
      var register1 := Next8Bits();
      var a := registers[register1];
      var register2 := Next8Bits();
      var b := registers[register2];
      var dest := Next8Bits();
      registers[dest] := ArithValue(op, a, b);
      if op == DIV {
        remainder := ToU32(TruncRem(a, b));
      }
      return true;
    }

    method ExecuteCompare(ghost s: State, op: Opcode)
      requires Valid() && WellFormed(s) && s.pc < |s.program| && AsState() == s.(pc := s.pc + 1)
      requires IsComparison(op) && CompareStep(s, op).Some?
      modifies this
      ensures Valid() && AsState() == CompareStep(s, op).value.1
    {
      var register1 := Next8Bits();
      var a := registers[register1];
      var register2 := Next8Bits();
      var b := registers[register2];
      equalFlag := Compare(op, a, b);
      var _ := Next8Bits();
    }

    method ExecuteJump(ghost s: State, op: Opcode)
      requires Valid() && WellFormed(s) && s.pc < |s.program| && AsState() == s.(pc := s.pc + 1)
      requires (op == JMP || op == JMPF || op == JMPEQ) && JumpStep(s, op).Some?
      modifies this
      ensures Valid() && AsState() == JumpStep(s, op).value.1
    {
      var register := Next8Bits();
      var value := registers[register];
      if op == JMP {
        pc := ToUsize(value);
      } else if op == JMPF {
        pc := pc + ToUsize(value);
      } else if equalFlag {
        pc := ToUsize(value);
      }
    }

    /** `execute_instruction`: one instruction, proved against `Step`. */
    method ExecuteInstruction() returns (done: bool)
      requires Valid() && Step(AsState()).Some?
      modifies this, registers
      ensures Valid() && (done, AsState()) == Step(old(AsState())).value
    {
      if pc >= |program| {
        return true;
      }
      ghost var s := AsState();
      var op := DecodeOpcode();
      if op == HLT {
        assert Step(s) == Some((true, s.(pc := s.pc + 1)));
      } else if op == LOAD {
        assert Step(s) == LoadStep(s);
        done := ExecuteLoad(s);
        return;
      } else if IsArithmetic(op) {
        assert Step(s) == ArithmeticStep(s, op);
        done := ExecuteArithmetic(s, op);
        return;
      } else if IsComparison(op) {
        assert Step(s) == CompareStep(s, op);
        ExecuteCompare(s, op);
      } else if op == JMP || op == JMPF || op == JMPEQ {
        assert Step(s) == JumpStep(s, op);
        ExecuteJump(s, op);
      } else {
        // IGL and LABEL: the opcode is decoded a second time
        assert Step(s) == Some((true, s.(pc := s.pc + 2)));
        var _ := DecodeOpcode();
      }
      return true;
    }

    /** `run_once_write_everywhere`: one instruction, its result dropped. */
    method RunOnceWriteEverywhere()
      requires Valid() && Step(AsState()).Some?
      modifies this, registers
      ensures Valid() && AsState() == Step(old(AsState())).value.1
    {
      var _ := ExecuteInstruction();
    }

    /** `run`: instructions until one reports that the machine is done. */
    method Run()
      requires Valid() && RunFrom(AsState()).Some?
      modifies this, registers
      ensures Valid() && AsState() == RunFrom(old(AsState())).value
    {
      var isDone := false;
      while !isDone
        invariant Valid()
        invariant !isDone ==> RunFrom(AsState()) == RunFrom(old(AsState()))
        invariant isDone ==> AsState() == RunFrom(old(AsState())).value
        decreases if isDone then 0 else 1, |program| - pc
      {
        ghost var before := AsState();
        assert Step(before).Some?;
        isDone := ExecuteInstruction();
      }
    }
  }
}
