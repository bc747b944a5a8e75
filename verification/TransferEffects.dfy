/** What jumps, calls, loads, stores and stack instructions do, told by the number of the opcode,
    the bytes at the program counter and the bytes of memory alone. */
module TransferEffects {
  import opened Machine
  import opened Execution
  import opened InstructionEffects
  import opened SaveRestore

  function Next(s: State): UInt16 {
    (s.pc + 4) % 0x1_0000
  }

  /** Nothing happens but moving on to the next instruction. */
  function Passed(m: Exec): Exec {
    m.(cpu := m.cpu.(pc := Next(m.cpu)))
  }

  /** When an instruction has a meaning: nothing is divided by zero, nor shifted by a register that
      holds 32 or more. */
  lemma StepsExactly(m: Exec)
    ensures CanStep(m) <==>
              && (Code(m.cpu) in {0xB0, 0xB1, 0xB2, 0xD0, 0xD1, 0xD2} ==> Operand(m.cpu) != 0)
              && (Code(m.cpu) in {0xC3, 0xC4, 0xC5} ==> m.cpu.regs[Second(m.cpu)] < 32)
  {
    hide HandlerOf, Decode;
    BytesTell(m.cpu);
    DefinedOpcodes(Code(m.cpu));
  }

  lemma DefinedOpcodes(code: UInt8)
    ensures code in {0xB0, 0xB1, 0xB2} ==> HandlerOf(code) == Binary(Div, ModeOf(code))
    ensures code in {0xD0, 0xD1, 0xD2} ==> HandlerOf(code) == Binary(Mod, ModeOf(code))
    ensures var h := HandlerOf(code); h.Binary? && (h.op.Div? || h.op.Mod?) ==> code in {0xB0, 0xB1, 0xB2, 0xD0, 0xD1, 0xD2}
    ensures var h := HandlerOf(code); h.Discard? ==> !h.op.Div? && !h.op.Mod?
    ensures HandlerOf(code).Shift? ==> 0xC0 <= code <= 0xC5 && HandlerOf(code).byRegister == (code >= 0xC3)
    ensures 0xC3 <= code <= 0xC5 ==> HandlerOf(code).Shift?
  {
  }

  // ---------- jumps ----------

  /** A jump to a target above the program's memory is refused. */
  function Jumped(m: Exec, target: UInt16): Exec {
    if target > 0xFDF0 then Passed(m).(err := 16) else Exec(m.cpu.(pc := target), 0)
  }

  /** What each condition code asks of the flag register. */
  predicate Meets(fr: Flags, code: Nibble) {
    match code
    case 0x0 => fr & 4 != 0
    case 0x1 => fr ^ (fr | 4) != 0
    case 0x2 => fr & 128 != 0
    case 0x3 => fr ^ (fr | 128) != 0
    case 0x4 => fr & 4 == 0 && fr ^ (fr | 128) != 0
    case 0x5 => fr & 64 != 0
    case 0x6 => fr ^ (fr | 64) != 0
    case 0x7 => fr ^ (fr | 4) != 0 && fr ^ (fr | 64) != 0
    case 0x8 => fr ^ (fr | 2) != 0
    case 0x9 => fr & 2 != 0
    case 0xA => fr & 4 != 0 || fr & 2 != 0
    case 0xB => fr & 4 != 0 && fr & 64 == fr & 128
    case 0xC => fr & 64 == fr & 128
    case 0xD => fr & 64 != fr & 128
    case 0xE => fr & 4 != 0 || fr & 64 != fr & 128
    case _ => false
  }

  lemma ConditionIsMet(fr: Flags, code: Nibble)
    ensures Condition(fr, code) <==> Meets(fr, code)
  {
  }

  lemma JumpOpcodes()
    ensures HandlerOf(0x10) == DirectJMP && HandlerOf(0x16) == IndirectJMP
    ensures HandlerOf(0x11) == JMC && HandlerOf(0x12) == Jx && HandlerOf(0x13) == JME
    ensures HandlerOf(0x14) == DirectCALL && HandlerOf(0x17) == Cx && HandlerOf(0x18) == IndirectCALL
    ensures HandlerOf(0x15) == RET
  {
  }

  /** JMP jumps always, JMC on carry, JME when two registers hold the same, and Jx on a condition,
      without telling whether the jump failed. */
  lemma Jumps(m: Exec, noise: UInt16)
    requires CanStep(m)
    ensures var s, n := m.cpu, Step(m, noise);
            && (Code(s) == 0x10 ==> n == Jumped(m, Imm(s)))
            && (Code(s) == 0x16 ==> n == Jumped(m, s.regs[First(s)]))
            && (Code(s) == 0x11 ==> n == if s.fr & 2 != 0 then Jumped(m, Imm(s)) else Passed(m))
            && (Code(s) == 0x13 ==> n == if s.regs[First(s)] == s.regs[Second(s)] then Jumped(m, Imm(s)) else Passed(m))
            && (Code(s) == 0x12 ==> n == if Meets(s.fr, First(s)) then Jumped(m, Imm(s)).(err := m.err) else Passed(m))
  {
    hide HandlerOf, Decode, Condition, Meets, Imm, First, Second;
    var s := m.cpu;
    BytesTell(s);
    JumpOpcodes();
    ConditionIsMet(s.fr, First(s));
  }

  // ---------- the stack ----------

  /** Two bytes, the low one first. */
  function WordAt(mem: Memory, address: nat): UInt16
    requires address < 0xFFFF
  {
    var low: int, high: int := mem[address], mem[address + 1];
    low + 0x100 * high
  }

  function WithWord(mem: Memory, address: nat, v: UInt16): Memory
    requires address < 0xFFFF
  {
    mem[address := v % 0x100][address + 1 := v / 0x100]
  }

  /** A push, at the stack pointer and upwards; a full stack stays as it is. */
  function Pushed(s: State, v: UInt16): State {
    if s.sp > 0xFFEE then s else s.(mem := WithWord(s.mem, s.sp, v), sp := s.sp + 2)
  }

  function PushError(s: State): ErrorCode {
    if s.sp > 0xFFEE then 2 else 0
  }

  /** The return address is pushed, and the jump is made even when there was no room for it. */
  function Called(m: Exec, target: UInt16): Exec {
    var s := Pushed(Passed(m).cpu, Next(m.cpu));
    if target > 0xFDF0 then Exec(s, PushError(m.cpu) | 16) else Exec(s.(pc := target), PushError(m.cpu))
  }

  lemma PushIsPushed(s: State, v: UInt16)
    ensures Push(s, v) == (Pushed(s, v), PushError(s))
  {
  }

  lemma CallIsCalled(m: Exec, target: UInt16)
    ensures Call(Passed(m), target) == Called(m, target)
  {
    hide Push, Pushed;
    PushIsPushed(Passed(m).cpu, Next(m.cpu));
  }

  /** CALL with an immediate target, with one in a register, and on a condition. */
  lemma Calls(m: Exec, noise: UInt16)
    requires CanStep(m)
    ensures var s, n := m.cpu, Step(m, noise);
            && (Code(s) == 0x14 ==> n == Called(m, Imm(s)))
            && (Code(s) == 0x18 ==> n == Called(m, s.regs[First(s)]))
            && (Code(s) == 0x17 ==> n == if Meets(s.fr, First(s)) then Called(m, Imm(s)) else Passed(m))
  {
    hide HandlerOf, Decode, Condition, Meets, Imm, First, Second, Call, Called;
    var s := m.cpu;
    BytesTell(s);
    JumpOpcodes();
    ConditionIsMet(s.fr, First(s));
    CallIsCalled(m, Imm(s));
    CallIsCalled(m, s.regs[First(s)]);
    assert Fetched(m) == Passed(m);
  }

  /** What a pop takes off the stack: the word below the stack pointer. An empty stack stays as it
      is, and the value is what the variable for it held. */
  function Popped(s: State, noise: UInt16): (State, UInt16, ErrorCode) {
    if s.sp < 0xFDF2 then (s, noise, 4) else (s.(sp := s.sp - 2), WordAt(s.mem, s.sp - 2), 0)
  }

  lemma PopIsPopped(s: State, noise: UInt16)
    ensures Pop(s, noise) == Popped(s, noise)
  {
  }

  /** RET jumps to the address popped. */
  lemma Returns(m: Exec, noise: UInt16)
    requires CanStep(m) && Code(m.cpu) == 0x15
    ensures var (s, target, err) := Popped(m.cpu, noise);
            Step(m, noise) == if target > 0xFDF0 then Exec(s.(pc := Next(s)), err | 16) else Exec(s.(pc := target), err)
  {
    hide HandlerOf, Decode, Pop, WordAt;
    BytesTell(m.cpu);
    JumpOpcodes();
    PopIsPopped(Passed(m).cpu, noise);
    assert Fetched(m) == Passed(m);
  }

  lemma StackOpcodes()
    ensures HandlerOf(0x40) == PUSH && HandlerOf(0x41) == POP && HandlerOf(0x44) == PUSHF && HandlerOf(0x45) == POPF
    ensures HandlerOf(0x42) == PUSHALL && HandlerOf(0x43) == POPALL
  {
  }

  /** PUSH and POP with a register, PUSHF and POPF with the flag register, of which the low byte of
      the word popped is kept. */
  lemma PushesAndPops(m: Exec, noise: UInt16)
    requires CanStep(m)
    ensures var s, p, n := m.cpu, Passed(m).cpu, Step(m, noise);
            var (popped, v, err) := Popped(p, noise);
            && (Code(s) == 0x40 ==> n == Exec(Pushed(p, s.regs[First(s)]), PushError(s)))
            && (Code(s) == 0x44 ==> n == Exec(Pushed(p, s.fr as UInt16), PushError(s)))
            && (Code(s) == 0x41 ==> n == Exec(popped.(regs := s.regs[First(s) := v]), err))
            && (Code(s) == 0x45 ==> n == Exec(popped.(fr := (v % 0x100) as bv8), err))
  {
    hide HandlerOf, Decode, Push, Pop, Pushed, WordAt;
    var s := m.cpu;
    BytesTell(s);
    StackOpcodes();
    PushIsPushed(Passed(m).cpu, s.regs[First(s)]);
    PushIsPushed(Passed(m).cpu, s.fr as UInt16);
    PopIsPopped(Passed(m).cpu, noise);
    assert Fetched(m) == Passed(m);
  }

  /** PUSHALL with room for all registers: they lie on the stack in ascending order. */
  lemma SavesAll(m: Exec, noise: UInt16)
    requires CanStep(m) && Code(m.cpu) == 0x42 && 0xFDF0 <= m.cpu.sp && m.cpu.sp + 32 <= 0xFFF0
    ensures var s, n := m.cpu, Step(m, noise);
            && n == Exec(Passed(m).cpu.(mem := n.cpu.mem, sp := s.sp + 32), m.err)
            && (forall j :: 0 <= j < 16 ==> WordAt(n.cpu.mem, s.sp + 2 * j) == s.regs[j])
            && (forall a :: 0 <= a < 0x1_0000 && !(s.sp <= a < s.sp + 32) ==> n.cpu.mem[a] == s.mem[a])
  {
    hide HandlerOf, Decode, PushFrom, Read, WordAt;
    var s, n := m.cpu, Step(m, noise);
    BytesTell(s);
    StackOpcodes();
    PushFromStores(Passed(m), 0, s.sp);
    forall j | 0 <= j < 16 ensures WordAt(n.cpu.mem, s.sp + 2 * j) == s.regs[j] {
      WordIsRead(n.cpu.mem, s.sp + 2 * j);
    }
  }

  lemma WordIsRead(mem: Memory, address: UInt16)
    requires address < 0xFFFF
    ensures WordAt(mem, address) == Read(mem, address)
  {
  }

  /** POPALL with all registers on the stack: they are taken off in descending order. */
  lemma RestoresAll(m: Exec, noise: UInt16)
    requires CanStep(m) && Code(m.cpu) == 0x43 && 0xFDF0 + 32 <= m.cpu.sp <= 0xFFF0
    ensures var s, n := m.cpu, Step(m, noise);
            && n == Exec(Passed(m).cpu.(regs := n.cpu.regs, sp := s.sp - 32), m.err)
            && (forall j :: 0 <= j < 16 ==> n.cpu.regs[j] == WordAt(s.mem, s.sp - 32 + 2 * j))
  {
    hide HandlerOf, Decode, PopBelow, Read, WordAt;
    var s, n := m.cpu, Step(m, noise);
    BytesTell(s);
    StackOpcodes();
    var regs: Registers := seq(16, j requires 0 <= j < 16 => WordAt(s.mem, s.sp - 32 + 2 * j));
    forall j | 0 <= j < 16 ensures Read(s.mem, s.sp - 32 + 2 * j) == regs[j] {
      WordIsRead(s.mem, s.sp - 32 + 2 * j);
    }
    PopBelowLoads(Passed(m), 16, noise, s.sp - 32, regs);
  }

  // ---------- loads and stores ----------

  lemma MemoryOpcodes()
    ensures HandlerOf(0x20) == RegisterLDI && HandlerOf(0x21) == StackLDI && HandlerOf(0x24) == MOV
    ensures HandlerOf(0x22) == DirectLDM && HandlerOf(0x23) == IndirectLDM
    ensures HandlerOf(0x30) == DirectSTM && HandlerOf(0x31) == IndirectSTM
  {
  }

  function Set(m: Exec, reg: Nibble, v: UInt16, err: ErrorCode): Exec {
    Exec(Passed(m).cpu.(regs := m.cpu.regs[reg := v]), err)
  }

  /** LDI to a register or, within the stack, to the stack pointer; MOV. */
  lemma Copies(m: Exec, noise: UInt16)
    requires CanStep(m)
    ensures var s, n := m.cpu, Step(m, noise);
            && (Code(s) == 0x20 ==> n == Set(m, First(s), Imm(s), 0))
            && (Code(s) == 0x24 ==> n == Set(m, First(s), s.regs[Second(s)], 0))
            && (Code(s) == 0x21 ==> n == if 0xFDF0 <= Imm(s) <= 0xFFF0 then Exec(Passed(m).cpu.(sp := Imm(s)), 0)
                                         else Passed(m).(err := 16))
  {
    hide HandlerOf, Decode, Imm, First, Second;
    BytesTell(m.cpu);
    MemoryOpcodes();
  }

  /** LDM from an immediate address or one in a register: the word there, unless it lies on the
      stack. Only the first tells of the error. At the last address the high byte may be any. */
  lemma Loads(m: Exec, noise: UInt16)
    requires CanStep(m) && Code(m.cpu) in {0x22, 0x23}
    ensures var s, n := m.cpu, Step(m, noise);
            var a := if Code(s) == 0x22 then Imm(s) else s.regs[Second(s)];
            && n == Set(m, First(s), n.cpu.regs[First(s)], if 0xFDF0 < a < 0xFFF0 && Code(s) == 0x22 then 16 else 0)
            && (0xFDF0 < a < 0xFFF0 ==> n.cpu.regs[First(s)] == noise)
            && (a <= 0xFDF0 || 0xFFF0 <= a < 0xFFFF ==> n.cpu.regs[First(s)] == WordAt(s.mem, a))
            && (a == 0xFFFF ==> n.cpu.regs[First(s)] % 0x100 == s.mem[a])
  {
    hide HandlerOf, Decode, Imm, First, Second;
    BytesTell(m.cpu);
    MemoryOpcodes();
  }

  /** STM to an immediate address or one in a register: nothing is stored on the stack. */
  lemma Stores(m: Exec, noise: UInt16)
    requires CanStep(m) && Code(m.cpu) in {0x30, 0x31}
    ensures var s, n := m.cpu, Step(m, noise);
            var a := if Code(s) == 0x30 then Imm(s) else s.regs[Second(s)];
            n == if a > 0xFDF0 then Passed(m).(err := 16)
                 else Exec(Passed(m).cpu.(mem := WithWord(s.mem, a, s.regs[First(s)])), 0)
  {
    hide HandlerOf, Decode, Imm, First, Second;
    BytesTell(m.cpu);
    MemoryOpcodes();
  }

  // ---------- the others ----------

  /** The opcodes that have a handler. */
  predicate IsKnown(code: UInt8) {
    || code in {0x00, 0x07, 0x63, 0x64, 0x73, 0x74}
    || 0x10 <= code <= 0x18 || 0x20 <= code <= 0x24 || 0x30 <= code <= 0x31 || 0x40 <= code <= 0x45
    || 0xC0 <= code <= 0xC5
    || 0x50 <= code <= 0x52 || 0x60 <= code <= 0x62 || 0x70 <= code <= 0x72 || 0x80 <= code <= 0x82
    || 0x90 <= code <= 0x92 || 0xA0 <= code <= 0xA2 || 0xB0 <= code <= 0xB2 || 0xD0 <= code <= 0xD2
    || 0xE0 <= code <= 0xE2 || 0xF0 <= code <= 0xF2
  }

  lemma UnknownOpcodes(code: UInt8)
    ensures !IsKnown(code) ==> HandlerOf(code) == UnknownOp
  {
  }

  lemma KnownOpcodes(code: UInt8)
    ensures IsKnown(code) ==> HandlerOf(code) != UnknownOp
    ensures HandlerOf(0x00) == NOP && HandlerOf(0x07) == RND
  {
  }

  /** NOP does nothing, and exactly the opcodes without handler stop with an error code and nothing
      else. */
  lemma Idles(m: Exec, noise: UInt16)
    requires CanStep(m)
    ensures HandlerOf(Code(m.cpu)) == UnknownOp <==> !IsKnown(Code(m.cpu))
    ensures Code(m.cpu) == 0x00 ==> Step(m, noise) == Passed(m)
    ensures !IsKnown(Code(m.cpu)) ==> Step(m, noise) == Passed(m).(err := 2)
  {
    hide HandlerOf, Decode, Defined, IsKnown, First, Second, Third, Imm;
    BytesTell(m.cpu);
    UnknownOpcodes(Code(m.cpu));
    KnownOpcodes(Code(m.cpu));
  }

  /** RND leaves a number up to the immediate value, and any of these can come. */
  lemma Draws(m: Exec, noise: UInt16)
    requires CanStep(m) && Code(m.cpu) == 0x07
    ensures var s, n := m.cpu, Step(m, noise);
            && n == Set(m, First(s), n.cpu.regs[First(s)], 0) && n.cpu.regs[First(s)] <= Imm(s)
            && (noise <= Imm(s) ==> n.cpu.regs[First(s)] == noise)
  {
    hide HandlerOf, Decode, Defined, IsKnown, First, Second, Imm;
    BytesTell(m.cpu);
    KnownOpcodes(0x07);
    NumberDrawn(noise, Imm(m.cpu) + 1);
  }

  lemma NumberDrawn(noise: nat, count: nat)
    requires count > 0
    ensures 0 <= noise % count < count && (noise < count ==> noise % count == noise)
  {
  }

  // ---------- loading a program ----------

  /** A program that is neither empty nor larger than memory is copied to its start, and the bytes
      behind it are kept; any other changes nothing. */
  lemma LoadsProgram(mem: Memory, program: seq<UInt8>)
    ensures var (mem', err) := Loaded(mem, program);
            if 0 < |program| <= 0x1_0000 then
              err == 0 && forall a :: 0 <= a < 0x1_0000 ==> mem'[a] == if a < |program| then program[a] else mem[a]
            else mem' == mem && err == if program == [] then 1 else 2
  {
  }
}
