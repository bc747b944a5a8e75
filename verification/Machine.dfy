/** The state of the MinChip16 processor and its primitive operations as functions: 16
    registers, 64 KB of memory with a stack that grows upwards, and an 8-bit flag register. */
module Machine {

  type UInt8 = x: int | 0 <= x < 0x100
  type UInt16 = x: int | 0 <= x < 0x1_0000
  type ErrorCode = bv8

  const NB_REGISTERS := 16
  const MEMORY_SIZE := 0x1_0000
  const STACK_START: UInt16 := 0xFDF0
  const STACK_END: UInt16 := 0xFFF0

  const NO_ERROR: ErrorCode := 0
  const UNKNOWN_REGISTER: ErrorCode := 1
  const STACK_OVERFLOW: ErrorCode := 2
  const STACK_UNDERFLOW: ErrorCode := 4
  const MEMORY_ERROR: ErrorCode := 16
  const EMPTY_ROM_ERROR: ErrorCode := 1
  const ROM_OVERFLOW_ERROR: ErrorCode := 2

  type Flags = bv8

  const UNSIGNED_CARRY_FLAG: Flags := 2
  const ZERO_FLAG: Flags := 4
  const SIGNED_OVERFLOW_FLAG: Flags := 64
  const NEGATIVE_FLAG: Flags := 128

  type Registers = r: seq<UInt16> | |r| == NB_REGISTERS witness seq(NB_REGISTERS, _ => 0)
  type Memory = m: seq<UInt8> | |m| == MEMORY_SIZE witness seq(MEMORY_SIZE, _ => 0)

  /** The processor's fields. */
  datatype State = State(pc: UInt16, sp: UInt16, fr: Flags, regs: Registers, mem: Memory)

  // ---------- words ----------

  function Low(v: UInt16): UInt8 { v % 0x100 }

  function High(v: UInt16): UInt8 { v / 0x100 }

  function Word(low: UInt8, high: UInt8): UInt16 { high * 0x100 + low }

  function Wrap(v: int): UInt16 { v % 0x1_0000 }

  /** The two's complement reading of a word. */
  function Signed(v: UInt16): int { if v < 0x8000 then v else v - 0x1_0000 }

  predicate Negative(v: UInt16) { v >= 0x8000 }

  // ---------- memory ----------

  function Write(mem: Memory, address: UInt16, v: UInt16): Memory
    requires address < 0xFFFF
  {
    mem[address := Low(v)][address + 1 := High(v)]
  }

  function Read(mem: Memory, address: UInt16): UInt16
    requires address < 0xFFFF
  {
    Word(mem[address], mem[address + 1])
  }

  /** A failed load leaves the caller's variable as it was, here `noise`. A load at the last
      address reads past the end of memory, where any byte may be. */
  function Load(s: State, address: UInt16, noise: UInt16): (UInt16, ErrorCode) {
    if STACK_START < address < STACK_END then (noise, MEMORY_ERROR)
    else if address == 0xFFFF then (Word(s.mem[address], High(noise)), NO_ERROR)
    else (Read(s.mem, address), NO_ERROR)
  }

  function Store(s: State, address: UInt16, v: UInt16): (State, ErrorCode) {
    if address > STACK_START then (s, MEMORY_ERROR) else (s.(mem := Write(s.mem, address, v)), NO_ERROR)
  }

  /** The program is copied to address 0, if there is one and it fits. */
  function Loaded(mem: Memory, program: seq<UInt8>): (Memory, ErrorCode) {
    if program == [] then (mem, EMPTY_ROM_ERROR)
    else if |program| > MEMORY_SIZE then (mem, ROM_OVERFLOW_ERROR)
    else (program + mem[|program|..], NO_ERROR)
  }

  // ---------- stack ----------

  function Push(s: State, v: UInt16): (State, ErrorCode) {
    if s.sp + 2 > STACK_END then (s, STACK_OVERFLOW)
    else (s.(mem := Write(s.mem, s.sp, v), sp := s.sp + 2), NO_ERROR)
  }

  /** A failed pop leaves the caller's variable as it was, here `noise`. */
  function Pop(s: State, noise: UInt16): (State, UInt16, ErrorCode) {
    if s.sp - 2 < STACK_START then (s, noise, STACK_UNDERFLOW)
    else (s.(sp := s.sp - 2), Read(s.mem, s.sp - 2), NO_ERROR)
  }

  // ---------- registers ----------

  function SetPC(s: State, v: UInt16): (State, ErrorCode) {
    if v > STACK_START then (s, MEMORY_ERROR) else (s.(pc := v), NO_ERROR)
  }

  function SetSP(s: State, v: UInt16): (State, ErrorCode) {
    if v < STACK_START || v > STACK_END then (s, MEMORY_ERROR) else (s.(sp := v), NO_ERROR)
  }

  function SetReg(s: State, id: UInt8, v: UInt16): (State, ErrorCode) {
    if id >= NB_REGISTERS then (s, UNKNOWN_REGISTER) else (s.(regs := s.regs[id := v]), NO_ERROR)
  }

  // ---------- flags ----------

  predicate HasFlag(fr: Flags, mask: Flags) {
    fr & mask != 0
  }

  function WithFlag(fr: Flags, mask: Flags, on: bool): Flags {
    if on then fr | mask else fr & !mask
  }

  function SignZeroFlags(fr: Flags, result: UInt16): Flags {
    WithFlag(WithFlag(fr, ZERO_FLAG, result == 0), NEGATIVE_FLAG, Negative(result))
  }

  function AddFlags(fr: Flags, op1: UInt16, op2: UInt16): Flags {
    var result := Wrap(op1 + op2);
    var overflow := (Negative(op1) && Negative(op2)) || (Negative(result) && !Negative(op1) && !Negative(op2));
    WithFlag(WithFlag(fr, UNSIGNED_CARRY_FLAG, result < op1), SIGNED_OVERFLOW_FLAG, overflow)
  }

  function DivFlags(fr: Flags, op1: UInt16, op2: UInt16): Flags
    requires op2 != 0
  {
    WithFlag(fr, UNSIGNED_CARRY_FLAG, op1 % op2 != 0)
  }

  function MulFlags(fr: Flags, op1: UInt16, op2: UInt16): Flags {
    WithFlag(fr, UNSIGNED_CARRY_FLAG, op1 * op2 > 0xFFFF)
  }

  /** The difference is kept in 32 bits; its bit 16 gives the carry. */
  function SubFlags(fr: Flags, op1: UInt16, op2: UInt16): Flags {
    var result := (op1 - op2) % 0x1_0000_0000;
    var overflow := Negative(op1) || (Negative(Wrap(result)) && Negative(op2));
    WithFlag(WithFlag(fr, UNSIGNED_CARRY_FLAG, (result / 0x1_0000) % 2 == 1), SIGNED_OVERFLOW_FLAG, overflow)
  }
}
