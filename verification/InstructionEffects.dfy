/** What each instruction does to the machine, told by the number of its opcode, the bytes at the
    program counter and the bits of the flag register alone. */
module InstructionEffects {
  import opened Machine
  import opened Execution
  import opened WordBits

  // ---------- the instruction at the program counter ----------

  function Code(s: State): UInt8 {
    s.mem[s.pc]
  }

  function First(s: State): Nibble {
    s.mem[(s.pc + 1) % 0x1_0000] % 16
  }

  function Second(s: State): Nibble {
    s.mem[(s.pc + 1) % 0x1_0000] / 16
  }

  function Third(s: State): Nibble {
    s.mem[(s.pc + 2) % 0x1_0000] % 16
  }

  function Imm(s: State): UInt16 {
    var low: int, high: int := s.mem[(s.pc + 2) % 0x1_0000], s.mem[(s.pc + 3) % 0x1_0000];
    low + 0x100 * high
  }

  /** The right operand: the immediate value when the low digit of the opcode is 0. */
  function Operand(s: State): UInt16 {
    if Code(s) % 16 == 0 then Imm(s) else s.regs[Second(s)]
  }

  /** The register written: the third operand when the low digit of the opcode is 2. */
  function Target(s: State): Nibble {
    if Code(s) % 16 == 2 then Third(s) else First(s)
  }

  lemma BytesTell(s: State)
    ensures Decode(s) == Instruction(Code(s), First(s), Second(s), Third(s), Imm(s))
  {
  }

  // ---------- flags ----------

  predicate Carried(fr: Flags) {
    fr & 2 != 0
  }

  predicate Overflowed(fr: Flags) {
    fr & 64 != 0
  }

  predicate IsZero(fr: Flags) {
    fr & 4 != 0
  }

  predicate IsNegative(fr: Flags) {
    fr & 128 != 0
  }

  /** The four flags are bits 1, 2, 6 and 7. The others are the same in both. */
  predicate SameOthers(fr: Flags, fr': Flags) {
    fr' & 0x39 == fr & 0x39
  }

  /** The one register written is `reg`; the flags for zero and sign tell about what it holds then,
      and nothing else but carry and overflow changes. */
  predicate Computes(m: Exec, n: Exec, reg: Nibble) {
    && n.cpu == m.cpu.(pc := (m.cpu.pc + 4) % 0x1_0000, fr := n.cpu.fr, regs := m.cpu.regs[reg := n.cpu.regs[reg]])
    && n.err == 0
    && TellsAbout(m.cpu.fr, n.cpu.fr, n.cpu.regs[reg])
  }

  predicate TellsAbout(fr: Flags, fr': Flags, v: UInt16) {
    && (IsZero(fr') <==> v == 0)
    && (IsNegative(fr') <==> v >= 0x8000)
    && SameOthers(fr, fr')
  }

  lemma SignZeroTells(fr: Flags, v: UInt16)
    ensures var fr' := SignZeroFlags(fr, v);
            TellsAbout(fr, fr', v) && Carried(fr') == Carried(fr) && Overflowed(fr') == Overflowed(fr)
  {
  }

  lemma AddTells(fr: Flags, x: UInt16, y: UInt16)
    ensures var fr' := AddFlags(fr, x, y);
            && SameOthers(fr, fr')
            && (Carried(fr') <==> x + y > 0xFFFF)
            && (Overflowed(fr') <==> if x >= 0x8000 then y >= 0x8000 else y < 0x8000 <= x + y)
  {
  }

  lemma SubTells(fr: Flags, x: UInt16, y: UInt16)
    ensures var fr' := SubFlags(fr, x, y);
            && SameOthers(fr, fr')
            && (Carried(fr') <==> x < y)
            && (Overflowed(fr') <==> x >= 0x8000 || x + 0x8000 >= y >= 0x8000)
  {
    var result := (x - y) % 0x1_0000_0000;
    if x >= y {
      assert result == x - y;
    } else {
      assert result == x - y + 0x1_0000_0000;
      assert result / 0x1_0000 == 0xFFFF;
    }
    assert Wrap(result) == Wrap(x - y);
  }

  lemma MulTells(fr: Flags, x: UInt16, y: UInt16)
    ensures var fr' := MulFlags(fr, x, y);
            SameOthers(fr, fr') && (Carried(fr') <==> x * y > 0xFFFF) && Overflowed(fr') == Overflowed(fr)
  {
  }

  lemma DivTells(fr: Flags, x: UInt16, y: UInt16)
    requires y != 0
    ensures var fr' := DivFlags(fr, x, y);
            SameOthers(fr, fr') && (Carried(fr') <==> x % y != 0) && Overflowed(fr') == Overflowed(fr)
  {
  }

  // ---------- arithmetic on two operands ----------

  lemma FlagsKept(op: AluOp, fr: Flags, x: UInt16, y: UInt16)
    requires op.Div? || op.Mod? ==> y != 0
    ensures SameOthers(fr, AluFlags(op, fr, x, y))
  {
    hide AddFlags, SubFlags, MulFlags, DivFlags;
    AddTells(fr, x, y);
    SubTells(fr, x, y);
    MulTells(fr, x, y);
    if y != 0 {
      DivTells(fr, x, y);
    }
  }

  function ModeOf(code: UInt8): Mode {
    match code % 16 case 0 => Immediate case 1 => Inplace case _ => Basic
  }

  /** What writing a result to a register leaves, from the flags `fr` set before. */
  lemma ResultIsWritten(m: Exec, before: Exec, reg: Nibble, v: UInt16)
    requires before == Exec(m.cpu.(pc := (m.cpu.pc + 4) % 0x1_0000, fr := before.cpu.fr), m.err)
    requires SameOthers(m.cpu.fr, before.cpu.fr)
    ensures var n := WriteResult(before, reg, v);
            && Computes(m, n, reg) && n.cpu.regs[reg] == v
            && Carried(n.cpu.fr) == Carried(before.cpu.fr) && Overflowed(n.cpu.fr) == Overflowed(before.cpu.fr)
  {
    hide SignZeroFlags, Carried, Overflowed, IsZero, IsNegative;
    SignZeroTells(before.cpu.fr, v);
  }

  lemma BinaryStep(m: Exec, noise: UInt16, op: AluOp)
    requires CanStep(m) && HandlerOf(Code(m.cpu)) == Binary(op, ModeOf(Code(m.cpu))) && Code(m.cpu) % 16 <= 2
    ensures var s, n := m.cpu, Step(m, noise);
            var x, y := s.regs[First(s)], Operand(s);
            && (op.Div? || op.Mod? ==> y != 0)
            && Computes(m, n, Target(s)) && n.cpu.regs[Target(s)] == Alu(op, x, y)
            && Carried(n.cpu.fr) == Carried(AluFlags(op, s.fr, x, y))
            && Overflowed(n.cpu.fr) == Overflowed(AluFlags(op, s.fr, x, y))
  {
    hide Alu, AluFlags, HandlerOf, WriteResult, Decode, Computes, Carried, Overflowed, SameOthers;
    BytesTell(m.cpu);
    var s := m.cpu;
    var x, y := s.regs[First(s)], Operand(s);
    FlagsKept(op, s.fr, x, y);
    ResultIsWritten(m, Exec(Fetched(m).cpu.(fr := AluFlags(op, s.fr, x, y)), m.err), Target(s), Alu(op, x, y));
  }

  lemma BinaryOpcodes(code: UInt8)
    ensures code in {0x50, 0x51, 0x52} ==> HandlerOf(code) == Binary(Add, ModeOf(code))
    ensures code in {0x60, 0x61, 0x62} ==> HandlerOf(code) == Binary(Sub, ModeOf(code))
    ensures code in {0x70, 0x71, 0x72} ==> HandlerOf(code) == Binary(And, ModeOf(code))
    ensures code in {0x80, 0x81, 0x82} ==> HandlerOf(code) == Binary(Or, ModeOf(code))
    ensures code in {0x90, 0x91, 0x92} ==> HandlerOf(code) == Binary(Xor, ModeOf(code))
    ensures code in {0xA0, 0xA1, 0xA2} ==> HandlerOf(code) == Binary(Mul, ModeOf(code))
    ensures code in {0xB0, 0xB1, 0xB2} ==> HandlerOf(code) == Binary(Div, ModeOf(code))
    ensures code in {0xD0, 0xD1, 0xD2} ==> HandlerOf(code) == Binary(Mod, ModeOf(code))
  {
  }

  lemma SumTells(fr: Flags, x: UInt16, y: UInt16)
    ensures var fr', r := AluFlags(Add, fr, x, y), Alu(Add, x, y);
            && x + y - r == (if Carried(fr') then 0x1_0000 else 0)
            && (Overflowed(fr') <==> if x >= 0x8000 then y >= 0x8000 else y < 0x8000 <= x + y)
  {
    hide AddFlags, Carried, Overflowed;
    AddTells(fr, x, y);
  }

  /** ADD: the sum, and the carry is its seventeenth bit. */
  lemma Adds(m: Exec, noise: UInt16)
    requires CanStep(m) && Code(m.cpu) in {0x50, 0x51, 0x52}
    ensures var s, n := m.cpu, Step(m, noise);
            var x, y, r := s.regs[First(s)], Operand(s), n.cpu.regs[Target(s)];
            && Computes(m, n, Target(s))
            && x + y - r == (if Carried(n.cpu.fr) then 0x1_0000 else 0)
            && (Overflowed(n.cpu.fr) <==> if x >= 0x8000 then y >= 0x8000 else y < 0x8000 <= x + y)
  {
    hide HandlerOf, Step, CanStep, Alu, AluFlags, Computes, Carried, Overflowed, SameOthers, Code, First, Operand, Target;
    var s := m.cpu;
    BinaryOpcodes(Code(s));
    BinaryStep(m, noise, Add);
    SumTells(s.fr, s.regs[First(s)], Operand(s));
  }

  lemma DifferenceTells(fr: Flags, x: UInt16, y: UInt16)
    ensures var fr', r := AluFlags(Sub, fr, x, y), Alu(Sub, x, y);
            && y + r - x == (if Carried(fr') then 0x1_0000 else 0)
            && (Overflowed(fr') <==> x >= 0x8000 || x + 0x8000 >= y >= 0x8000)
  {
    hide SubFlags, Carried, Overflowed;
    SubTells(fr, x, y);
  }

  /** SUB: the difference, and the carry is what was borrowed. */
  lemma Subtracts(m: Exec, noise: UInt16)
    requires CanStep(m) && Code(m.cpu) in {0x60, 0x61, 0x62}
    ensures var s, n := m.cpu, Step(m, noise);
            var x, y, r := s.regs[First(s)], Operand(s), n.cpu.regs[Target(s)];
            && Computes(m, n, Target(s))
            && y + r - x == (if Carried(n.cpu.fr) then 0x1_0000 else 0)
            && (Overflowed(n.cpu.fr) <==> x >= 0x8000 || x + 0x8000 >= y >= 0x8000)
  {
    hide HandlerOf, Step, CanStep, Alu, AluFlags, Computes, Carried, Overflowed, SameOthers, Code, First, Operand, Target;
    var s := m.cpu;
    BinaryOpcodes(Code(s));
    BinaryStep(m, noise, Sub);
    DifferenceTells(s.fr, s.regs[First(s)], Operand(s));
  }

  lemma ProductTells(fr: Flags, x: UInt16, y: UInt16)
    ensures var fr', r := AluFlags(Mul, fr, x, y), Alu(Mul, x, y);
            && (x * y - r) % 0x1_0000 == 0
            && (Carried(fr') <==> x * y != r)
            && Overflowed(fr') == Overflowed(fr)
  {
    hide MulFlags, Carried, Overflowed;
    MulTells(fr, x, y);
    ProductIsPositive(x, y);
  }

  lemma ProductIsPositive(x: nat, y: nat)
    ensures x * y >= 0
  {
  }

  /** MUL: the low sixteen bits of the product, and the carry tells whether there are more. */
  lemma Multiplies(m: Exec, noise: UInt16)
    requires CanStep(m) && Code(m.cpu) in {0xA0, 0xA1, 0xA2}
    ensures var s, n := m.cpu, Step(m, noise);
            var x, y, r := s.regs[First(s)], Operand(s), n.cpu.regs[Target(s)];
            && Computes(m, n, Target(s))
            && (x * y - r) % 0x1_0000 == 0
            && (Carried(n.cpu.fr) <==> x * y != r)
            && Overflowed(n.cpu.fr) == Overflowed(s.fr)
  {
    hide HandlerOf, Step, CanStep, Alu, AluFlags, Computes, Carried, Overflowed, SameOthers, Code, First, Operand, Target;
    var s := m.cpu;
    BinaryOpcodes(Code(s));
    BinaryStep(m, noise, Mul);
    ProductTells(s.fr, s.regs[First(s)], Operand(s));
  }

  lemma QuotientTells(fr: Flags, x: UInt16, y: UInt16)
    requires y != 0
    ensures var fr', r := AluFlags(Div, fr, x, y), Alu(Div, x, y);
            && y * r <= x < y * r + y
            && (Carried(fr') <==> x != y * r)
            && Overflowed(fr') == Overflowed(fr)
  {
    hide DivFlags, Carried, Overflowed;
    DivTells(fr, x, y);
  }

  /** DIV: the quotient, and the carry tells whether there is a remainder. */
  lemma Divides(m: Exec, noise: UInt16)
    requires CanStep(m) && Code(m.cpu) in {0xB0, 0xB1, 0xB2}
    ensures var s, n := m.cpu, Step(m, noise);
            var x, y, r := s.regs[First(s)], Operand(s), n.cpu.regs[Target(s)];
            && Computes(m, n, Target(s))
            && y * r <= x < y * r + y
            && (Carried(n.cpu.fr) <==> x != y * r)
            && Overflowed(n.cpu.fr) == Overflowed(s.fr)
  {
    hide HandlerOf, Step, CanStep, Alu, AluFlags, Computes, Carried, Overflowed, SameOthers, Code, First, Operand, Target;
    var s := m.cpu;
    BinaryOpcodes(Code(s));
    BinaryStep(m, noise, Div);
    QuotientTells(s.fr, s.regs[First(s)], Operand(s));
  }

  lemma RemainderTells(fr: Flags, x: UInt16, y: UInt16)
    requires y != 0
    ensures AluFlags(Mod, fr, x, y) == fr
    ensures var r := Alu(Mod, x, y); r < y && x == y * (x / y) + r
  {
  }

  /** MOD: what is left when the right operand is taken away as often as can be. */
  lemma LeavesRemainder(m: Exec, noise: UInt16)
    requires CanStep(m) && Code(m.cpu) in {0xD0, 0xD1, 0xD2}
    ensures var s, n := m.cpu, Step(m, noise);
            var x, y, r := s.regs[First(s)], Operand(s), n.cpu.regs[Target(s)];
            && Computes(m, n, Target(s))
            && r < y && x == y * (x / y) + r
            && Carried(n.cpu.fr) == Carried(s.fr) && Overflowed(n.cpu.fr) == Overflowed(s.fr)
  {
    hide HandlerOf, Step, CanStep, Alu, AluFlags, Computes, Carried, Overflowed, SameOthers, Code, First, Operand, Target;
    var s := m.cpu;
    BinaryOpcodes(Code(s));
    BinaryStep(m, noise, Mod);
    RemainderTells(s.fr, s.regs[First(s)], Operand(s));
  }

  /** AND, bit by bit. */
  lemma Ands(m: Exec, noise: UInt16)
    requires CanStep(m) && Code(m.cpu) in {0x70, 0x71, 0x72}
    ensures var s, n := m.cpu, Step(m, noise);
            var x, y, r := s.regs[First(s)], Operand(s), n.cpu.regs[Target(s)];
            && Computes(m, n, Target(s))
            && (forall k: Nibble :: Bit(r, k) <==> Bit(x, k) && Bit(y, k))
            && Carried(n.cpu.fr) == Carried(s.fr) && Overflowed(n.cpu.fr) == Overflowed(s.fr)
  {
    hide HandlerOf, Step, CanStep, Alu, Bit, Computes, Carried, Overflowed, SameOthers, Code, First, Operand, Target;
    var s := m.cpu;
    BinaryOpcodes(Code(s));
    BinaryStep(m, noise, And);
    forall k: Nibble ensures Bit(Alu(And, s.regs[First(s)], Operand(s)), k) <==> Bit(s.regs[First(s)], k) && Bit(Operand(s), k) {
      AndBits(s.regs[First(s)], Operand(s), k);
    }
  }

  /** OR, bit by bit. */
  lemma Ors(m: Exec, noise: UInt16)
    requires CanStep(m) && Code(m.cpu) in {0x80, 0x81, 0x82}
    ensures var s, n := m.cpu, Step(m, noise);
            var x, y, r := s.regs[First(s)], Operand(s), n.cpu.regs[Target(s)];
            && Computes(m, n, Target(s))
            && (forall k: Nibble :: Bit(r, k) <==> Bit(x, k) || Bit(y, k))
            && Carried(n.cpu.fr) == Carried(s.fr) && Overflowed(n.cpu.fr) == Overflowed(s.fr)
  {
    hide HandlerOf, Step, CanStep, Alu, Bit, Computes, Carried, Overflowed, SameOthers, Code, First, Operand, Target;
    var s := m.cpu;
    BinaryOpcodes(Code(s));
    BinaryStep(m, noise, Or);
    forall k: Nibble ensures Bit(Alu(Or, s.regs[First(s)], Operand(s)), k) <==> Bit(s.regs[First(s)], k) || Bit(Operand(s), k) {
      OrBits(s.regs[First(s)], Operand(s), k);
    }
  }

  /** XOR, bit by bit. */
  lemma Xors(m: Exec, noise: UInt16)
    requires CanStep(m) && Code(m.cpu) in {0x90, 0x91, 0x92}
    ensures var s, n := m.cpu, Step(m, noise);
            var x, y, r := s.regs[First(s)], Operand(s), n.cpu.regs[Target(s)];
            && Computes(m, n, Target(s))
            && (forall k: Nibble :: Bit(r, k) <==> Bit(x, k) != Bit(y, k))
            && Carried(n.cpu.fr) == Carried(s.fr) && Overflowed(n.cpu.fr) == Overflowed(s.fr)
  {
    hide HandlerOf, Step, CanStep, Alu, Bit, Computes, Carried, Overflowed, SameOthers, Code, First, Operand, Target;
    var s := m.cpu;
    BinaryOpcodes(Code(s));
    BinaryStep(m, noise, Xor);
    forall k: Nibble ensures Bit(Alu(Xor, s.regs[First(s)], Operand(s)), k) <==> Bit(s.regs[First(s)], k) != Bit(Operand(s), k) {
      XorBits(s.regs[First(s)], Operand(s), k);
    }
  }

  // ---------- comparing and testing ----------

  /** The right operand of an instruction that keeps no result. */
  function Compared(s: State): UInt16 {
    if Code(s) in {0x63, 0x73} then Imm(s) else s.regs[Second(s)]
  }

  /** Nothing but the flags changes. */
  predicate OnlyTells(m: Exec, n: Exec) {
    n == m.(cpu := m.cpu.(pc := (m.cpu.pc + 4) % 0x1_0000, fr := n.cpu.fr))
  }

  lemma DiscardStep(m: Exec, noise: UInt16, op: AluOp)
    requires CanStep(m) && Code(m.cpu) in {0x63, 0x64, 0x73, 0x74}
    requires HandlerOf(Code(m.cpu)) == Discard(op, if Code(m.cpu) in {0x63, 0x73} then Immediate else Basic)
    requires op.Sub? || op.And?
    ensures var s, n := m.cpu, Step(m, noise);
            var x, y := s.regs[First(s)], Compared(s);
            && OnlyTells(m, n)
            && TellsAbout(s.fr, n.cpu.fr, Alu(op, x, y))
            && Carried(n.cpu.fr) == Carried(AluFlags(op, s.fr, x, y))
            && Overflowed(n.cpu.fr) == Overflowed(AluFlags(op, s.fr, x, y))
  {
    hide Alu, AluFlags, HandlerOf, SignZeroFlags, Decode, Carried, Overflowed, IsZero, IsNegative;
    BytesTell(m.cpu);
    var s := m.cpu;
    var x, y := s.regs[First(s)], Compared(s);
    FlagsKept(op, s.fr, x, y);
    SignZeroTells(AluFlags(op, s.fr, x, y), Alu(op, x, y));
  }

  lemma DiscardOpcodes()
    ensures HandlerOf(0x63) == Discard(Sub, Immediate) && HandlerOf(0x64) == Discard(Sub, Basic)
    ensures HandlerOf(0x73) == Discard(And, Immediate) && HandlerOf(0x74) == Discard(And, Basic)
  {
  }

  /** CMP: the flags of the difference. */
  lemma Compares(m: Exec, noise: UInt16)
    requires CanStep(m) && Code(m.cpu) in {0x63, 0x64}
    ensures var s, n := m.cpu, Step(m, noise);
            var x, y := s.regs[First(s)], Compared(s);
            && OnlyTells(m, n) && SameOthers(s.fr, n.cpu.fr)
            && (IsZero(n.cpu.fr) <==> x == y)
            && (IsNegative(n.cpu.fr) <==> x - y >= 0x8000 || -0x8000 <= x - y < 0)
            && (Carried(n.cpu.fr) <==> x < y)
            && (Overflowed(n.cpu.fr) <==> x >= 0x8000 || x + 0x8000 >= y >= 0x8000)
  {
    hide HandlerOf, Step, CanStep, Alu, AluFlags, Carried, Overflowed, SameOthers, IsZero, IsNegative;
    hide First, Compared, OnlyTells;
    var s := m.cpu;
    DiscardOpcodes();
    DiscardStep(m, noise, Sub);
    DifferenceTells(s.fr, s.regs[First(s)], Compared(s));
  }

  /** TST: the flags of the word whose bits are those set in both operands. */
  lemma Tests(m: Exec, noise: UInt16)
    requires CanStep(m) && Code(m.cpu) in {0x73, 0x74}
    ensures var s, n := m.cpu, Step(m, noise);
            var x, y := s.regs[First(s)], Compared(s);
            && OnlyTells(m, n)
            && Carried(n.cpu.fr) == Carried(s.fr) && Overflowed(n.cpu.fr) == Overflowed(s.fr)
            && (forall r: UInt16 | (forall k: Nibble :: Bit(r, k) <==> Bit(x, k) && Bit(y, k)) ::
                  TellsAbout(s.fr, n.cpu.fr, r))
  {
    hide HandlerOf, Step, CanStep, Alu, Carried, Overflowed, TellsAbout, First, Compared, OnlyTells, Bit;
    var s, n := m.cpu, Step(m, noise);
    DiscardOpcodes();
    DiscardStep(m, noise, And);
    var x, y := s.regs[First(s)], Compared(s);
    forall r: UInt16 | forall k: Nibble :: Bit(r, k) <==> Bit(x, k) && Bit(y, k)
      ensures TellsAbout(s.fr, n.cpu.fr, r)
    {
      forall k: Nibble ensures Bit(r, k) <==> Bit(Alu(And, x, y), k) {
        AndBits(x, y, k);
      }
      BitsDetermine(r, Alu(And, x, y));
    }
  }

  // ---------- arithmetic on one operand ----------

  /** The operand: the immediate value, the first register or the second one. */
  function OneOperand(s: State): UInt16 {
    match Code(s) % 16
    case 0 => Imm(s)
    case 1 => s.regs[First(s)]
    case _ => s.regs[Second(s)]
  }

  lemma UnaryStep(m: Exec, noise: UInt16, op: UnaryOp)
    requires CanStep(m) && HandlerOf(Code(m.cpu)) == Unary(op, ModeOf(Code(m.cpu)))
    ensures var s, n := m.cpu, Step(m, noise);
            && Computes(m, n, First(s)) && n.cpu.regs[First(s)] == UnaryAlu(op, OneOperand(s))
            && Carried(n.cpu.fr) == Carried(s.fr) && Overflowed(n.cpu.fr) == Overflowed(s.fr)
  {
    hide UnaryAlu, HandlerOf, WriteResult, Decode, Computes, Carried, Overflowed;
    BytesTell(m.cpu);
    ResultIsWritten(m, Fetched(m), First(m.cpu), UnaryAlu(op, OneOperand(m.cpu)));
  }

  lemma UnaryOpcodes(code: UInt8)
    ensures code in {0xE0, 0xE1, 0xE2} ==> HandlerOf(code) == Unary(Not, ModeOf(code))
    ensures code in {0xF0, 0xF1, 0xF2} ==> HandlerOf(code) == Unary(Neg, ModeOf(code))
  {
  }

  /** NOT, bit by bit. */
  lemma Inverts(m: Exec, noise: UInt16)
    requires CanStep(m) && Code(m.cpu) in {0xE0, 0xE1, 0xE2}
    ensures var s, n := m.cpu, Step(m, noise);
            var v, r := OneOperand(s), n.cpu.regs[First(s)];
            && Computes(m, n, First(s))
            && (forall k: Nibble :: Bit(r, k) <==> !Bit(v, k)) && v + r == 0xFFFF
            && Carried(n.cpu.fr) == Carried(s.fr) && Overflowed(n.cpu.fr) == Overflowed(s.fr)
  {
    hide HandlerOf, Step, CanStep, Computes, Carried, Overflowed, Code, First, OneOperand, Bit;
    var s := m.cpu;
    UnaryOpcodes(Code(s));
    UnaryStep(m, noise, Not);
    forall k: Nibble ensures Bit(UnaryAlu(Not, OneOperand(s)), k) <==> !Bit(OneOperand(s), k) {
      NotBits(OneOperand(s), k);
    }
  }

  /** NEG: operand and result add up to 0 modulo 0x10000. */
  lemma Negates(m: Exec, noise: UInt16)
    requires CanStep(m) && Code(m.cpu) in {0xF0, 0xF1, 0xF2}
    ensures var s, n := m.cpu, Step(m, noise);
            var v, r := OneOperand(s), n.cpu.regs[First(s)];
            && Computes(m, n, First(s))
            && (v + r) % 0x1_0000 == 0
            && Carried(n.cpu.fr) == Carried(s.fr) && Overflowed(n.cpu.fr) == Overflowed(s.fr)
  {
    hide HandlerOf, Step, CanStep, Computes, Carried, Overflowed, Code, First, OneOperand;
    UnaryOpcodes(Code(m.cpu));
    UnaryStep(m, noise, Neg);
  }

  // ---------- shifts ----------

  /** By how much is shifted. */
  function Count(s: State): UInt16 {
    if Code(s) in {0xC0, 0xC1, 0xC2} then Third(s) else s.regs[Second(s)]
  }

  /** The two's complement reading. */
  function AsSigned(v: UInt16): int {
    if v >= 0x8000 then v - 0x1_0000 else v
  }

  lemma ShiftStep(m: Exec, noise: UInt16, op: ShiftOp)
    requires CanStep(m) && HandlerOf(Code(m.cpu)) == Shift(op, Code(m.cpu) !in {0xC0, 0xC1, 0xC2})
    ensures var s, n := m.cpu, Step(m, noise);
            && Computes(m, n, First(s)) && n.cpu.regs[First(s)] == Shifted(op, s.regs[First(s)], Count(s))
            && Carried(n.cpu.fr) == Carried(s.fr) && Overflowed(n.cpu.fr) == Overflowed(s.fr)
  {
    hide Shifted, HandlerOf, WriteResult, Decode, Computes, Carried, Overflowed;
    BytesTell(m.cpu);
    var s := m.cpu;
    ResultIsWritten(m, Fetched(m), First(s), Shifted(op, s.regs[First(s)], Count(s)));
  }

  lemma ShiftOpcodes(code: UInt8)
    ensures code in {0xC0, 0xC3} ==> HandlerOf(code) == Shift(Shl, code == 0xC3)
    ensures code in {0xC1, 0xC4} ==> HandlerOf(code) == Shift(Shr, code == 0xC4)
    ensures code in {0xC2, 0xC5} ==> HandlerOf(code) == Shift(Sar, code == 0xC5)
  {
  }

  lemma {:induction false} PowersAgree(n: nat)
    ensures Power2(n) == TwoTo(n)
  {
    if n > 0 {
      PowersAgree(n - 1);
    }
  }

  lemma ShiftTells(v: UInt16, count: nat)
    ensures (v * TwoTo(count) - Shifted(Shl, v, count)) % 0x1_0000 == 0
    ensures var r := Shifted(Shr, v, count); r * TwoTo(count) <= v < (r + 1) * TwoTo(count)
    ensures var r := AsSigned(Shifted(Sar, v, count)); r * TwoTo(count) <= AsSigned(v) < (r + 1) * TwoTo(count)
  {
    hide TwoTo, Power2, AsSigned, Wrap, Signed;
    PowersAgree(count);
    var p := TwoTo(count);
    assert Shifted(Shl, v, count) == Wrap(v * p) && Shifted(Shr, v, count) == Wrap(v / p);
    ShlTells(v * p);
    ShrTells(v, p);
    SarTells(v, p);
  }

  lemma ShlTells(v: nat)
    ensures (v - Wrap(v)) % 0x1_0000 == 0
  {
  }

  lemma ShrTells(v: UInt16, p: nat)
    requires p > 0
    ensures var r := Wrap(v / p); r * p <= v < (r + 1) * p
  {
    QuotientIsSmaller(v, p, v / p, v % p);
  }

  lemma SarTells(v: UInt16, p: nat)
    requires p > 0
    ensures var r := AsSigned(Wrap(Signed(v) / p)); r * p <= AsSigned(v) < (r + 1) * p
  {
    var w := AsSigned(v);
    var q, rest := w / p, w % p;
    assert w == p * q + rest;
    assert -0x8000 <= q < 0x8000 by { QuotientIsSmall(w, p, q, rest); }
  }

  lemma GrowsBy(p: nat, n: nat)
    requires p > 0
    ensures p * n >= n
  {
  }

  lemma QuotientIsSmall(w: int, p: nat, q: int, r: int)
    requires p > 0 && w == p * q + r && 0 <= r < p && -0x8000 <= w < 0x8000
    ensures -0x8000 <= q < 0x8000
  {
    if q >= 0 {
      GrowsBy(p, q);
    } else {
      GrowsBy(p, -q - 1);
      assert p * (-q - 1) == -(p * q) - p;
    }
  }

  /** SHL: the low sixteen bits of the operand times a power of two. */
  lemma ShiftsLeft(m: Exec, noise: UInt16)
    requires CanStep(m) && Code(m.cpu) in {0xC0, 0xC3}
    ensures var s, n := m.cpu, Step(m, noise);
            var v, r := s.regs[First(s)], n.cpu.regs[First(s)];
            && Computes(m, n, First(s))
            && (v * TwoTo(Count(s)) - r) % 0x1_0000 == 0
            && Carried(n.cpu.fr) == Carried(s.fr) && Overflowed(n.cpu.fr) == Overflowed(s.fr)
  {
    hide HandlerOf, Step, CanStep, Computes, Carried, Overflowed, First, Count, Shifted, TwoTo;
    ShiftOpcodes(Code(m.cpu));
    ShiftStep(m, noise, Shl);
    ShiftTells(m.cpu.regs[First(m.cpu)], Count(m.cpu));
  }

  /** SHR: the operand over a power of two, rounded down. */
  lemma ShiftsRight(m: Exec, noise: UInt16)
    requires CanStep(m) && Code(m.cpu) in {0xC1, 0xC4}
    ensures var s, n := m.cpu, Step(m, noise);
            var v, r := s.regs[First(s)], n.cpu.regs[First(s)];
            && Computes(m, n, First(s))
            && r * TwoTo(Count(s)) <= v < (r + 1) * TwoTo(Count(s))
            && Carried(n.cpu.fr) == Carried(s.fr) && Overflowed(n.cpu.fr) == Overflowed(s.fr)
  {
    hide HandlerOf, Step, CanStep, Computes, Carried, Overflowed, First, Count, Shifted, TwoTo;
    ShiftOpcodes(Code(m.cpu));
    ShiftStep(m, noise, Shr);
    ShiftTells(m.cpu.regs[First(m.cpu)], Count(m.cpu));
  }

  /** SAR: the same on the two's complement readings. */
  lemma ShiftsArithmetically(m: Exec, noise: UInt16)
    requires CanStep(m) && Code(m.cpu) in {0xC2, 0xC5}
    ensures var s, n := m.cpu, Step(m, noise);
            var v, r := AsSigned(s.regs[First(s)]), AsSigned(n.cpu.regs[First(s)]);
            && Computes(m, n, First(s))
            && r * TwoTo(Count(s)) <= v < (r + 1) * TwoTo(Count(s))
            && Carried(n.cpu.fr) == Carried(s.fr) && Overflowed(n.cpu.fr) == Overflowed(s.fr)
  {
    hide HandlerOf, Step, CanStep, Computes, Carried, Overflowed, First, Count, Shifted, TwoTo, AsSigned;
    ShiftOpcodes(Code(m.cpu));
    ShiftStep(m, noise, Sar);
    ShiftTells(m.cpu.regs[First(m.cpu)], Count(m.cpu));
  }
}
