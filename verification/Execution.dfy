/** What each instruction of the MinChip16 machine does, as functions on the state of the
    interpreter. */
module Execution {
  import opened Machine

  /** The processor and the interpreter's current error code. */
  datatype Exec = Exec(cpu: State, err: ErrorCode)

  type Nibble = x: int | 0 <= x < 16

  datatype Instruction = Instruction(opcode: UInt8, first: Nibble, second: Nibble, third: Nibble, imm: UInt16)

  datatype AluOp = Add | Sub | And | Or | Xor | Mul | Div | Mod
  datatype UnaryOp = Not | Neg
  datatype ShiftOp = Shl | Shr | Sar
  datatype Mode = Immediate | Inplace | Basic

  datatype Handler =
    | NOP | RND
    | DirectJMP | JMC | Jx | JME | DirectCALL | RET | IndirectJMP | Cx | IndirectCALL
    | RegisterLDI | StackLDI | DirectLDM | IndirectLDM | MOV
    | DirectSTM | IndirectSTM
    | PUSH | POP | PUSHALL | POPALL | PUSHF | POPF
    | Binary(op: AluOp, mode: Mode)
    | Discard(op: AluOp, mode: Mode)
    | Unary(unary: UnaryOp, mode: Mode)
    | Shift(shift: ShiftOp, byRegister: bool)
    | UnknownOp

  /** The table of opcodes. */
  function HandlerOf(opcode: UInt8): Handler {
    match opcode
    case 0x00 => NOP
    case 0x07 => RND
    case 0x10 => DirectJMP
    case 0x11 => JMC
    case 0x12 => Jx
    case 0x13 => JME
    case 0x14 => DirectCALL
    case 0x15 => RET
    case 0x16 => IndirectJMP
    case 0x17 => Cx
    case 0x18 => IndirectCALL
    case 0x20 => RegisterLDI
    case 0x21 => StackLDI
    case 0x22 => DirectLDM
    case 0x23 => IndirectLDM
    case 0x24 => MOV
    case 0x30 => DirectSTM
    case 0x31 => IndirectSTM
    case 0x40 => PUSH
    case 0x41 => POP
    case 0x42 => PUSHALL
    case 0x43 => POPALL
    case 0x44 => PUSHF
    case 0x45 => POPF
    case 0x50 => Binary(Add, Immediate)
    case 0x51 => Binary(Add, Inplace)
    case 0x52 => Binary(Add, Basic)
    case 0x60 => Binary(Sub, Immediate)
    case 0x61 => Binary(Sub, Inplace)
    case 0x62 => Binary(Sub, Basic)
    case 0x63 => Discard(Sub, Immediate)
    case 0x64 => Discard(Sub, Basic)
    case 0x70 => Binary(And, Immediate)
    case 0x71 => Binary(And, Inplace)
    case 0x72 => Binary(And, Basic)
    case 0x73 => Discard(And, Immediate)
    case 0x74 => Discard(And, Basic)
    case 0x80 => Binary(Or, Immediate)
    case 0x81 => Binary(Or, Inplace)
    case 0x82 => Binary(Or, Basic)
    case 0x90 => Binary(Xor, Immediate)
    case 0x91 => Binary(Xor, Inplace)
    case 0x92 => Binary(Xor, Basic)
    case 0xA0 => Binary(Mul, Immediate)
    case 0xA1 => Binary(Mul, Inplace)
    case 0xA2 => Binary(Mul, Basic)
    case 0xB0 => Binary(Div, Immediate)
    case 0xB1 => Binary(Div, Inplace)
    case 0xB2 => Binary(Div, Basic)
    case 0xC0 => Shift(Shl, false)
    case 0xC1 => Shift(Shr, false)
    case 0xC2 => Shift(Sar, false)
    case 0xC3 => Shift(Shl, true)
    case 0xC4 => Shift(Shr, true)
    case 0xC5 => Shift(Sar, true)
    case 0xD0 => Binary(Mod, Immediate)
    case 0xD1 => Binary(Mod, Inplace)
    case 0xD2 => Binary(Mod, Basic)
    case 0xE0 => Unary(Not, Immediate)
    case 0xE1 => Unary(Not, Inplace)
    case 0xE2 => Unary(Not, Basic)
    case 0xF0 => Unary(Neg, Immediate)
    case 0xF1 => Unary(Neg, Inplace)
    case 0xF2 => Unary(Neg, Basic)
    case _ => UnknownOp
  }

  const UNKNOWN_OP_ERROR: ErrorCode := 2

  /** A new machine: memory is not initialized, `image` is what it happens to hold. */
  function Fresh(image: Memory): Exec {
    Exec(State(0, STACK_START, 0, seq(NB_REGISTERS, _ => 0), image), NO_ERROR)
  }

  // ---------- fetching ----------

  /** The byte `k` places after the program counter, which wraps around. */
  function ByteAt(s: State, k: nat): UInt8 {
    s.mem[(s.pc + k) % 0x1_0000]
  }

  function Decode(s: State): Instruction {
    Instruction(ByteAt(s, 0), ByteAt(s, 1) % 16, ByteAt(s, 1) / 16, ByteAt(s, 2) % 16,
                Word(ByteAt(s, 2), ByteAt(s, 3)))
  }

  // ---------- arithmetic ----------

  function Bits(v: UInt16): bv16 { v as bv16 }

  function Alu(op: AluOp, x: UInt16, y: UInt16): UInt16
    requires op.Div? || op.Mod? ==> y != 0
  {
    match op
    case Add => Wrap(x + y)
    case Sub => Wrap(x - y)
    case And => (Bits(x) & Bits(y)) as UInt16
    case Or => (Bits(x) | Bits(y)) as UInt16
    case Xor => (Bits(x) ^ Bits(y)) as UInt16
    case Mul => Wrap(x * y)
    case Div => Quotient(x, y)
    case Mod => Remainder(x, y)
  }

  function Quotient(x: UInt16, y: UInt16): UInt16
    requires y != 0
  {
    QuotientIsSmaller(x, y, x / y, x % y);
    x / y
  }

  lemma QuotientIsSmaller(x: nat, y: nat, q: int, r: int)
    requires y > 0 && r >= 0 && x == y * q + r
    ensures 0 <= q ==> q <= x
    ensures r < y ==> 0 <= q
  {
    if q < 0 {
      assert y * q <= y * -1;
    } else {
      assert y * q >= 1 * q;
    }
  }

  function Remainder(x: UInt16, y: UInt16): UInt16
    requires y != 0
  {
    x % y
  }

  /** The flags set before the operation; the logical operations and MOD set none. */
  function AluFlags(op: AluOp, fr: Flags, x: UInt16, y: UInt16): Flags
    requires op.Div? || op.Mod? ==> y != 0
  {
    match op
    case Add => AddFlags(fr, x, y)
    case Sub => SubFlags(fr, x, y)
    case Mul => MulFlags(fr, x, y)
    case Div => DivFlags(fr, x, y)
    case _ => fr
  }

  function UnaryAlu(op: UnaryOp, v: UInt16): UInt16 {
    if op.Not? then 0xFFFF - v else Wrap(0 - (v as int))
  }

  function Power2(n: nat): (r: nat)
    ensures r > 0
  {
    if n == 0 then 1 else 2 * Power2(n - 1)
  }

  function Shifted(op: ShiftOp, v: UInt16, count: nat): UInt16 {
    match op
    case Shl => Wrap(v * Power2(count))
    case Shr => Wrap(v / Power2(count))
    case Sar => Wrap(Signed(v) / Power2(count))
  }

  // ---------- conditions ----------

  predicate Condition(fr: Flags, code: Nibble) {
    var c, z := HasFlag(fr, UNSIGNED_CARRY_FLAG), HasFlag(fr, ZERO_FLAG);
    var v, n := HasFlag(fr, SIGNED_OVERFLOW_FLAG), HasFlag(fr, NEGATIVE_FLAG);
    match code
    case 0x0 => z
    case 0x1 => !z
    case 0x2 => n
    case 0x3 => !n
    case 0x4 => !z && !n
    case 0x5 => v
    case 0x6 => !v
    case 0x7 => !z && !v
    case 0x8 => !c
    case 0x9 => c
    case 0xA => z || c
    // The overflow bit and the negative bit are compared in place: they are equal only when both are off
    case 0xB => z && !v && !n
    case 0xC => !v && !n
    case 0xD => v || n
    case 0xE => z || v || n
    case _ => false
  }

  // ---------- the handlers ----------

  function Jump(m: Exec, target: UInt16): Exec {
    var (cpu, err) := SetPC(m.cpu, target);
    Exec(cpu, err)
  }

  /** A failed jump of this kind leaves the error code alone. */
  function QuietJump(m: Exec, target: UInt16): Exec {
    m.(cpu := SetPC(m.cpu, target).0)
  }

  /** The jump is made even when the push failed. */
  function Call(m: Exec, target: UInt16): Exec {
    var (pushed, err) := Push(m.cpu, m.cpu.pc);
    var (cpu, err') := SetPC(pushed, target);
    Exec(cpu, err | err')
  }

  function Return(m: Exec, noise: UInt16): Exec {
    var (popped, target, err) := Pop(m.cpu, noise);
    var (cpu, err') := SetPC(popped, target);
    Exec(cpu, err | err')
  }

  function SetRegister(m: Exec, reg: Nibble, v: UInt16): Exec {
    var (cpu, err) := SetReg(m.cpu, reg, v);
    Exec(cpu, err)
  }

  function LoadDirect(m: Exec, reg: Nibble, address: UInt16, noise: UInt16): Exec {
    var (v, err) := Load(m.cpu, address, noise);
    var (cpu, err') := SetReg(m.cpu, reg, v);
    Exec(cpu, err | err')
  }

  /** The error code of the load is overwritten. */
  function LoadIndirect(m: Exec, reg: Nibble, address: UInt16, noise: UInt16): Exec {
    SetRegister(m, reg, Load(m.cpu, address, noise).0)
  }

  function StoreAt(m: Exec, address: UInt16, v: UInt16): Exec {
    var (cpu, err) := Store(m.cpu, address, v);
    Exec(cpu, err)
  }

  function PushValue(m: Exec, v: UInt16): Exec {
    var (cpu, err) := Push(m.cpu, v);
    Exec(cpu, err)
  }

  function PopRegister(m: Exec, reg: Nibble, noise: UInt16): Exec {
    var (popped, v, err) := Pop(m.cpu, noise);
    var (cpu, err') := SetReg(popped, reg, v);
    Exec(cpu, err | err')
  }

  function PopFlags(m: Exec, noise: UInt16): Exec {
    var (cpu, v, err) := Pop(m.cpu, noise);
    Exec(cpu.(fr := Low(v) as bv8), err)
  }

  function PushOne(m: Exec, i: Nibble): Exec {
    var (cpu, err) := Push(m.cpu, m.cpu.regs[i]);
    Exec(cpu, m.err | err)
  }

  /** Pushes the registers from the `i`-th on, in ascending order. */
  function PushFrom(m: Exec, i: nat): Exec
    requires i <= NB_REGISTERS
    decreases NB_REGISTERS - i
  {
    if i == NB_REGISTERS then m else PushFrom(PushOne(m, i), i + 1)
  }

  /** Pops register `i`. A pop that fails leaves the value popped last, `val`. */
  function PopOne(m: Exec, i: Nibble, val: UInt16): (Exec, UInt16) {
    var (popped, v, err) := Pop(m.cpu, val);
    var (cpu, err') := SetReg(popped, i, v);
    (Exec(cpu, m.err | err | err'), v)
  }

  /** Pops the registers below the `i`-th, in descending order. */
  function PopBelow(m: Exec, i: nat, val: UInt16): Exec
    requires i <= NB_REGISTERS
    decreases i
  {
    if i == 0 then m
    else
      var (after, v) := PopOne(m, i - 1, val);
      PopBelow(after, i - 1, v)
  }

  /** Writes a result to a register and sets the sign and zero flags by it. */
  function WriteResult(m: Exec, reg: Nibble, result: UInt16): Exec {
    var after := SetRegister(m, reg, result);
    after.(cpu := after.cpu.(fr := SignZeroFlags(after.cpu.fr, result)))
  }

  /** The right operand of a binary operation. */
  function Right(s: State, i: Instruction, mode: Mode): UInt16 {
    if mode.Immediate? then i.imm else s.regs[i.second]
  }

  function BinaryArithmetic(m: Exec, i: Instruction, op: AluOp, mode: Mode): Exec
    requires op.Div? || op.Mod? ==> Right(m.cpu, i, mode) != 0
  {
    var x, y := m.cpu.regs[i.first], Right(m.cpu, i, mode);
    WriteResult(m.(cpu := m.cpu.(fr := AluFlags(op, m.cpu.fr, x, y))),
                if mode.Basic? then i.third else i.first, Alu(op, x, y))
  }

  function DiscardArithmetic(m: Exec, i: Instruction, op: AluOp, mode: Mode): Exec
    requires op.Div? || op.Mod? ==> Right(m.cpu, i, mode) != 0
  {
    var x, y := m.cpu.regs[i.first], Right(m.cpu, i, mode);
    m.(cpu := m.cpu.(fr := SignZeroFlags(AluFlags(op, m.cpu.fr, x, y), Alu(op, x, y))))
  }

  function UnaryArithmetic(m: Exec, i: Instruction, op: UnaryOp, mode: Mode): Exec {
    var v := match mode
             case Immediate => i.imm
             case Inplace => m.cpu.regs[i.first]
             case Basic => m.cpu.regs[i.second];
    WriteResult(m, i.first, UnaryAlu(op, v))
  }

  function ShiftCount(s: State, i: Instruction, byRegister: bool): UInt16 {
    if byRegister then s.regs[i.second] else i.third
  }

  function ShiftArithmetic(m: Exec, i: Instruction, op: ShiftOp, byRegister: bool): Exec {
    WriteResult(m, i.first, Shifted(op, m.cpu.regs[i.first], ShiftCount(m.cpu, i, byRegister)))
  }

  // ---------- one instruction ----------

  /** The language gives a meaning to the instruction: no division by zero, no shift by 32 or
      more. */
  predicate Defined(s: State, i: Instruction) {
    match HandlerOf(i.opcode)
    case Binary(op, mode) => op.Div? || op.Mod? ==> Right(s, i, mode) != 0
    case Discard(op, mode) => op.Div? || op.Mod? ==> Right(s, i, mode) != 0
    case Shift(_, byRegister) => ShiftCount(s, i, byRegister) < 32
    case _ => true
  }

  function Execute(m: Exec, i: Instruction, noise: UInt16): Exec
    requires Defined(m.cpu, i)
  {
    var regs := m.cpu.regs;
    match HandlerOf(i.opcode)
    case NOP => m
    case RND => SetRegister(m, i.first, noise % (i.imm + 1))
    case DirectJMP => Jump(m, i.imm)
    case JMC => if HasFlag(m.cpu.fr, UNSIGNED_CARRY_FLAG) then Jump(m, i.imm) else m
    case Jx => if Condition(m.cpu.fr, i.first) then QuietJump(m, i.imm) else m
    case JME => if regs[i.first] == regs[i.second] then Jump(m, i.imm) else m
    case DirectCALL => Call(m, i.imm)
    case RET => Return(m, noise)
    case IndirectJMP => Jump(m, regs[i.first])
    case Cx => if Condition(m.cpu.fr, i.first) then Call(m, i.imm) else m
    case IndirectCALL => Call(m, regs[i.first])
    case RegisterLDI => SetRegister(m, i.first, i.imm)
    case StackLDI => var (cpu, err) := SetSP(m.cpu, i.imm); Exec(cpu, err)
    case DirectLDM => LoadDirect(m, i.first, i.imm, noise)
    case IndirectLDM => LoadIndirect(m, i.first, regs[i.second], noise)
    case MOV => SetRegister(m, i.first, regs[i.second])
    case DirectSTM => StoreAt(m, i.imm, regs[i.first])
    case IndirectSTM => StoreAt(m, regs[i.second], regs[i.first])
    case PUSH => PushValue(m, regs[i.first])
    case POP => PopRegister(m, i.first, noise)
    case PUSHALL => PushFrom(m, 0)
    case POPALL => PopBelow(m, NB_REGISTERS, noise)
    case PUSHF => PushValue(m, m.cpu.fr as UInt16)
    case POPF => PopFlags(m, noise)
    case Binary(op, mode) => BinaryArithmetic(m, i, op, mode)
    case Discard(op, mode) => DiscardArithmetic(m, i, op, mode)
    case Unary(op, mode) => UnaryArithmetic(m, i, op, mode)
    case Shift(op, byRegister) => ShiftArithmetic(m, i, op, byRegister)
    case UnknownOp => m.(err := UNKNOWN_OP_ERROR)
  }

  function Fetched(m: Exec): Exec {
    m.(cpu := m.cpu.(pc := Wrap(m.cpu.pc + 4)))
  }

  /** The next instruction can be executed. */
  predicate CanStep(m: Exec) {
    Defined(m.cpu, Decode(m.cpu))
  }

  /** Fetching and executing one instruction. `noise` is the random number drawn, or what an
      uninitialized variable holds. */
  function Step(m: Exec, noise: UInt16): Exec
    requires CanStep(m)
  {
    Execute(Fetched(m), Decode(m.cpu), noise)
  }
}
