/** What every run of the machine keeps, whatever the program: the stack pointer's range, the
    top of memory, the frames below the stack pointer, and matching calls and returns. */
module MachineRuns {
  import opened Machine
  import opened Execution

  predicate StackOk(s: State) {
    STACK_START <= s.sp <= STACK_END
  }

  /** Memory changes only where the stack pointer moves up over it. */
  ghost predicate OnlyPushes(s: State, s': State) {
    forall a :: 0 <= a < MEMORY_SIZE && s'.mem[a] != s.mem[a] ==> s.sp <= a < s'.sp
  }

  /** Memory changes only below the stack or in its first two bytes. */
  ghost predicate OnlyStores(s: State, s': State) {
    forall a :: 0 <= a < MEMORY_SIZE && s'.mem[a] != s.mem[a] ==> a <= STACK_START + 1
  }

  predicate IsStore(h: Handler) {
    h.DirectSTM? || h.IndirectSTM?
  }

  // ---------- one instruction ----------

  lemma PushKeeps(s: State, v: UInt16)
    requires StackOk(s)
    ensures StackOk(Push(s, v).0) && OnlyPushes(s, Push(s, v).0)
    ensures s.sp <= Push(s, v).0.sp
  {
  }

  lemma PushesCompose(s: State, mid: State, s': State)
    requires OnlyPushes(s, mid) && OnlyPushes(mid, s') && s.sp <= mid.sp <= s'.sp
    ensures OnlyPushes(s, s')
  {
  }

  lemma {:induction false} PushFromKeeps(m: Exec, i: nat)
    requires i <= NB_REGISTERS && StackOk(m.cpu)
    ensures StackOk(PushFrom(m, i).cpu) && OnlyPushes(m.cpu, PushFrom(m, i).cpu) && m.cpu.sp <= PushFrom(m, i).cpu.sp
    decreases NB_REGISTERS - i
  {
    hide Push, OnlyPushes;
    if i < NB_REGISTERS {
      var mid := PushOne(m, i);
      PushKeeps(m.cpu, m.cpu.regs[i]);
      PushFromKeeps(mid, i + 1);
      PushesCompose(m.cpu, mid.cpu, PushFrom(m, i).cpu);
    } else {
      NothingPushed(m.cpu);
    }
  }

  lemma NothingPushed(s: State)
    ensures OnlyPushes(s, s)
  {
  }

  lemma {:induction false} PopBelowKeeps(m: Exec, i: nat, val: UInt16)
    requires i <= NB_REGISTERS && StackOk(m.cpu)
    ensures StackOk(PopBelow(m, i, val).cpu) && PopBelow(m, i, val).cpu.mem == m.cpu.mem
    decreases i
  {
    if i > 0 {
      var (after, v) := PopOne(m, i - 1, val);
      PopBelowKeeps(after, i - 1, v);
    }
  }

  /** Arithmetic leaves memory, stack pointer and program counter alone. */
  lemma ArithmeticKeeps(m: Exec, i: Instruction)
    requires Defined(m.cpu, i)
    requires var h := HandlerOf(i.opcode); h.Binary? || h.Discard? || h.Unary? || h.Shift?
    ensures forall noise :: var s := Execute(m, i, noise).cpu; s == m.cpu.(fr := s.fr, regs := s.regs)
  {
    hide HandlerOf, Alu, AluFlags, UnaryAlu, Shifted, SignZeroFlags;
  }

  predicate IsQuiet(h: Handler) {
    match h
    case NOP => true
    case RND => true
    case DirectJMP => true
    case JMC => true
    case Jx => true
    case JME => true
    case IndirectJMP => true
    case RegisterLDI => true
    case DirectLDM => true
    case IndirectLDM => true
    case MOV => true
    case Binary(_, _) => true
    case Discard(_, _) => true
    case Unary(_, _) => true
    case Shift(_, _) => true
    case UnknownOp => true
    case _ => false
  }

  /** Jumps, loads and arithmetic leave memory and stack pointer alone. */
  lemma QuietKeeps(m: Exec, i: Instruction, noise: UInt16)
    requires Defined(m.cpu, i) && IsQuiet(HandlerOf(i.opcode))
    ensures var s := Execute(m, i, noise).cpu; s.mem == m.cpu.mem && s.sp == m.cpu.sp
  {
    hide HandlerOf, BinaryArithmetic, DiscardArithmetic, UnaryArithmetic, ShiftArithmetic;
    hide Condition, HasFlag, Defined, Load, PushFrom, PopBelow;
    var h := HandlerOf(i.opcode);
    if h.Binary? || h.Discard? || h.Unary? || h.Shift? {
      ArithmeticKeeps(m, i);
    }
  }

  lemma CallKeeps(m: Exec, target: UInt16)
    requires StackOk(m.cpu)
    ensures var s := Call(m, target).cpu; StackOk(s) && OnlyPushes(m.cpu, s)
  {
    hide Push;
    PushKeeps(m.cpu, m.cpu.pc);
  }

  lemma PopKeeps(s: State, noise: UInt16)
    requires StackOk(s)
    ensures StackOk(Pop(s, noise).0) && Pop(s, noise).0.mem == s.mem
  {
  }

  lemma StoreKeeps(m: Exec, address: UInt16, v: UInt16)
    ensures var s := StoreAt(m, address, v).cpu; OnlyStores(m.cpu, s) && s.sp == m.cpu.sp
  {
  }

  /** An instruction keeps the stack pointer in range; a store writes below the stack or in its
      first two bytes, and any other instruction writes only what it pushes. */
  lemma ExecuteKeeps(m: Exec, i: Instruction, noise: UInt16)
    requires Defined(m.cpu, i) && StackOk(m.cpu)
    ensures var s, h := Execute(m, i, noise).cpu, HandlerOf(i.opcode);
            && StackOk(s)
            && (IsStore(h) ==> OnlyStores(m.cpu, s) && s.sp == m.cpu.sp)
            && (!IsStore(h) ==> OnlyPushes(m.cpu, s))
  {
    hide HandlerOf, PushFrom, PopBelow, Call, Push, Pop, StoreAt, OnlyPushes, OnlyStores;
    hide Condition, HasFlag, Defined, SetReg;
    var h := HandlerOf(i.opcode);
    NothingPushed(m.cpu);
    if IsQuiet(h) {
      QuietKeeps(m, i, noise);
      SameMemory(m.cpu, Execute(m, i, noise).cpu);
    } else if IsStore(h) {
      StoreKeeps(m, if h.DirectSTM? then i.imm else m.cpu.regs[i.second], m.cpu.regs[i.first]);
    } else if h.DirectCALL? || h.Cx? || h.IndirectCALL? {
      CallKeeps(m, if h.IndirectCALL? then m.cpu.regs[i.first] else i.imm);
    } else {
      StackInstructionKeeps(m, i, noise);
    }
  }

  lemma SameMemory(s: State, s': State)
    requires s.mem == s'.mem
    ensures OnlyPushes(s, s')
  {
  }

  lemma StackInstructionKeeps(m: Exec, i: Instruction, noise: UInt16)
    requires Defined(m.cpu, i) && StackOk(m.cpu)
    requires var h := HandlerOf(i.opcode);
             h.RET? || h.StackLDI? || h.PUSH? || h.POP? || h.PUSHALL? || h.POPALL? || h.PUSHF? || h.POPF?
    ensures var s := Execute(m, i, noise).cpu; StackOk(s) && OnlyPushes(m.cpu, s)
  {
    hide HandlerOf, PushFrom, PopBelow, Push, Pop, OnlyPushes, Defined;
    var h, s := HandlerOf(i.opcode), Execute(m, i, noise).cpu;
    if h.PUSHALL? {
      PushFromKeeps(m, 0);
    } else if h.POPALL? {
      PopBelowKeeps(m, NB_REGISTERS, noise);
      SameMemory(m.cpu, s);
    } else if h.PUSH? {
      PushKeeps(m.cpu, m.cpu.regs[i.first]);
    } else if h.PUSHF? {
      PushKeeps(m.cpu, m.cpu.fr as UInt16);
    } else {
      PopKeeps(m.cpu, noise);
      SameMemory(m.cpu, s);
    }
  }

  // ---------- runs ----------

  /** A run: each state comes from the one before by one instruction, with some noise. */
  ghost predicate IsRun(ms: seq<Exec>): (r: bool)
    ensures r ==> ms != []
  {
    ms != [] && forall k :: 0 < k < |ms| ==> IsStep(ms[k - 1], ms[k])
  }

  ghost predicate IsStep(m: Exec, m': Exec) {
    CanStep(m) && exists noise :: m' == Step(m, noise)
  }

  lemma StepKeeps(m: Exec, m': Exec)
    requires IsStep(m, m') && StackOk(m.cpu)
    ensures StackOk(m'.cpu)
    ensures forall a :: 0 <= a < MEMORY_SIZE && m'.cpu.mem[a] != m.cpu.mem[a] ==>
              a <= STACK_START + 1 || m.cpu.sp <= a < m'.cpu.sp
  {
    hide Execute, Decode, HandlerOf;
    var noise :| m' == Step(m, noise);
    ExecuteKeeps(Fetched(m), Decode(m.cpu), noise);
  }

  /** Whole-run safety: the stack pointer stays in range, and nothing at or above the end of the
      stack is ever written. */
  lemma {:induction false} RunIsSafe(ms: seq<Exec>, k: nat)
    requires IsRun(ms) && StackOk(ms[0].cpu) && k < |ms|
    ensures StackOk(ms[k].cpu)
    ensures forall a :: STACK_END <= a < MEMORY_SIZE ==> ms[k].cpu.mem[a] == ms[0].cpu.mem[a]
    decreases k
  {
    hide IsStep;
    if k > 0 {
      RunIsSafe(ms, k - 1);
      assert IsStep(ms[k - 1], ms[k]);
      StepKeeps(ms[k - 1], ms[k]);
    }
  }

  /** A run from a new machine, its program loaded, needs no assumption about the stack. */
  lemma FreshRunIsSafe(image: Memory, program: seq<UInt8>, ms: seq<Exec>, k: nat)
    requires IsRun(ms) && k < |ms|
    requires ms[0] == Fresh(image).(cpu := Fresh(image).cpu.(mem := Loaded(image, program).0))
    ensures StackOk(ms[k].cpu)
    ensures forall a :: STACK_END <= a < MEMORY_SIZE ==> ms[k].cpu.mem[a] == ms[0].cpu.mem[a]
  {
    RunIsSafe(ms, k);
  }

  /** The stack grows only inside its bounds: an instruction that is no store never writes
      outside them. */
  lemma PushesStayInStack(m: Exec, noise: UInt16, a: int)
    requires CanStep(m) && StackOk(m.cpu) && !IsStore(HandlerOf(Decode(m.cpu).opcode))
    requires 0 <= a < MEMORY_SIZE && Step(m, noise).cpu.mem[a] != m.cpu.mem[a]
    ensures STACK_START <= m.cpu.sp <= a < STACK_END
  {
    hide Execute, Decode, HandlerOf;
    ExecuteKeeps(Fetched(m), Decode(m.cpu), noise);
  }

  /** Frame preservation: while the stack pointer stays at or above `s`, no instruction changes
      the stack below `s`, its first two bytes aside. */
  lemma {:induction false} FrameIsPreserved(ms: seq<Exec>, s: int, k: nat)
    requires IsRun(ms) && StackOk(ms[0].cpu) && k < |ms|
    requires forall j :: 0 <= j < |ms| ==> ms[j].cpu.sp >= s
    ensures forall a :: STACK_START + 2 <= a < s && a < MEMORY_SIZE ==> ms[k].cpu.mem[a] == ms[0].cpu.mem[a]
    decreases k
  {
    hide IsStep;
    if k > 0 {
      FrameIsPreserved(ms, s, k - 1);
      RunIsSafe(ms, k - 1);
      assert IsStep(ms[k - 1], ms[k]);
      StepKeeps(ms[k - 1], ms[k]);
    }
  }

  // ---------- what stores can do to the stack ----------

  function StoreTarget(s: State, i: Instruction): UInt16 {
    if HandlerOf(i.opcode).DirectSTM? then i.imm else s.regs[i.second]
  }

  /** The instruction is a store that goes through and writes to the word at `a`. */
  predicate Hits(s: State, i: Instruction, a: int) {
    IsStore(HandlerOf(i.opcode)) && StoreTarget(s, i) <= STACK_START && a - 1 <= StoreTarget(s, i) <= a + 1
  }

  /** What the instruction makes of a word on the stack at `a` that holds `w`: a store just below
      it writes its high byte to the low byte of the word. */
  function WordAfter(s: State, i: Instruction, a: int, w: UInt16): UInt16 {
    var v := s.regs[i.first];
    if !Hits(s, i, a) then w else if StoreTarget(s, i) == a then v else Word(High(v), High(w))
  }

  /** What is left along a run of the word that was on the stack at `a`. */
  function WordAlong(ms: seq<Exec>, k: nat, a: int): UInt16
    requires k < |ms| && 0 <= a < 0xFFFF
  {
    if k == 0 then Read(ms[0].cpu.mem, a)
    else WordAfter(ms[k - 1].cpu, Decode(ms[k - 1].cpu), a, WordAlong(ms, k - 1, a))
  }

  lemma StoreHits(m: Exec, address: UInt16, v: UInt16, a: int)
    requires STACK_START <= a < 0xFFFF
    ensures Read(StoreAt(m, address, v).cpu.mem, a)
         == var w := Read(m.cpu.mem, a);
            if address > STACK_START || address < a - 1 then w else if address == a then v else Word(High(v), High(w))
  {
  }

  /** Only a store can touch the stack below the stack pointer, and only its first two bytes. */
  lemma ExecuteHits(m: Exec, i: Instruction, noise: UInt16, a: int)
    requires Defined(m.cpu, i) && StackOk(m.cpu) && STACK_START <= a && a + 2 <= m.cpu.sp
    ensures Read(Execute(m, i, noise).cpu.mem, a) == WordAfter(m.cpu, i, a, Read(m.cpu.mem, a))
    ensures STACK_START + 2 <= a ==> !Hits(m.cpu, i, a)
  {
    ExecuteKeeps(m, i, noise);
    if IsStore(HandlerOf(i.opcode)) {
      StoreHits(m, StoreTarget(m.cpu, i), m.cpu.regs[i.first], a);
      hide HandlerOf, StoreAt, Read, Word, High;
    } else {
      hide Execute, HandlerOf, WordAfter, Word;
      assert WordAfter(m.cpu, i, a, Read(m.cpu.mem, a)) == Read(m.cpu.mem, a) by {
        NoStoreNoHit(m.cpu, i, a, Read(m.cpu.mem, a));
      }
    }
  }

  lemma NoStoreNoHit(s: State, i: Instruction, a: int, w: UInt16)
    requires !IsStore(HandlerOf(i.opcode))
    ensures WordAfter(s, i, a, w) == w && !Hits(s, i, a)
  {
    hide HandlerOf, Word, High;
  }

  lemma StepHits(m: Exec, m': Exec, a: int)
    requires IsStep(m, m') && StackOk(m.cpu) && STACK_START <= a && a + 2 <= m.cpu.sp
    ensures Read(m'.cpu.mem, a) == WordAfter(m.cpu, Decode(m.cpu), a, Read(m.cpu.mem, a))
    ensures STACK_START + 2 <= a ==> !Hits(m.cpu, Decode(m.cpu), a)
  {
    hide Execute, Decode, HandlerOf, Read, WordAfter;
    var noise :| m' == Step(m, noise);
    ExecuteHits(Fetched(m), Decode(m.cpu), noise, a);
    SameHits(m, a, Read(m.cpu.mem, a));
  }

  lemma SameHits(m: Exec, a: int, w: UInt16)
    ensures WordAfter(Fetched(m).cpu, Decode(m.cpu), a, w) == WordAfter(m.cpu, Decode(m.cpu), a, w)
    ensures Hits(Fetched(m).cpu, Decode(m.cpu), a) == Hits(m.cpu, Decode(m.cpu), a)
  {
    hide Decode, HandlerOf;
  }

  /** While the stack pointer stays above a word of the stack, the word is what the stores that
      hit it make of it; it is kept when none does, which is sure from the third byte up. */
  lemma {:induction false} WordIsTracked(ms: seq<Exec>, k: nat, a: int)
    requires IsRun(ms) && StackOk(ms[0].cpu) && k < |ms| && STACK_START <= a < STACK_END
    requires forall j :: 0 <= j < k ==> ms[j].cpu.sp >= a + 2
    ensures Read(ms[k].cpu.mem, a) == WordAlong(ms, k, a)
    ensures (forall j :: 0 <= j < k ==> !Hits(ms[j].cpu, Decode(ms[j].cpu), a)) ==> WordAlong(ms, k, a) == Read(ms[0].cpu.mem, a)
    ensures STACK_START + 2 <= a ==> forall j :: 0 <= j < k ==> !Hits(ms[j].cpu, Decode(ms[j].cpu), a)
    decreases k
  {
    hide IsStep, Decode, Read, Hits;
    if k > 0 {
      WordIsTracked(ms, k - 1, a);
      RunIsSafe(ms, k - 1);
      assert IsStep(ms[k - 1], ms[k]);
      StepHits(ms[k - 1], ms[k], a);
    }
  }

  // ---------- calls and returns ----------

  /** The address a call that is executed next jumps to. */
  function CallTarget(s: State, i: Instruction): UInt16 {
    if HandlerOf(i.opcode).IndirectCALL? then s.regs[i.first] else i.imm
  }

  predicate Calls(s: State, i: Instruction) {
    var h := HandlerOf(i.opcode);
    h.DirectCALL? || h.IndirectCALL? || (h.Cx? && Condition(s.fr, i.first))
  }

  predicate Returns(s: State) {
    HandlerOf(Decode(s).opcode).RET?
  }

  lemma CallPushesReturnAddress(m: Exec, noise: UInt16)
    requires CanStep(m) && Calls(m.cpu, Decode(m.cpu)) && StackOk(m.cpu) && m.cpu.sp + 2 <= STACK_END
    ensures var s := Step(m, noise).cpu;
            s.sp == m.cpu.sp + 2 && Read(s.mem, m.cpu.sp) == Wrap(m.cpu.pc + 4)
  {
    hide HandlerOf, Decode, Condition, Defined;
    var i, m1 := Decode(m.cpu), Fetched(m);
    assert Step(m, noise) == Call(m1, CallTarget(m.cpu, i));
    WriteThenRead(m.cpu.mem, m.cpu.sp, m1.cpu.pc);
  }

  lemma WriteThenRead(mem: Memory, address: UInt16, v: UInt16)
    requires address < 0xFFFF
    ensures Read(Write(mem, address, v), address) == v
  {
  }

  lemma ReturnPops(m: Exec, noise: UInt16)
    requires CanStep(m) && Returns(m.cpu) && m.cpu.sp - 2 >= STACK_START
    ensures var s, target := Step(m, noise).cpu, Read(m.cpu.mem, m.cpu.sp - 2);
            s.sp == m.cpu.sp - 2 && s.pc == if target <= STACK_START then target else Wrap(m.cpu.pc + 4)
  {
    hide HandlerOf, Decode, Defined;
    assert Step(m, noise) == Return(Fetched(m), noise);
  }

  /** Matched call and return, whatever happens in between, nested calls included: if the stack
      pointer never drops below its level just after the call, and a return is executed at that
      level, then the stack pointer is back where it was, and execution continues, if it can, at
      the address that the stores in between have left in the return slot. That is the address
      behind the call if no store hits the slot, and none can when the slot lies above the first
      two bytes of the stack. */
  lemma CallReturns(m: Exec, noise: UInt16, ms: seq<Exec>, noise': UInt16)
    requires CanStep(m) && Calls(m.cpu, Decode(m.cpu)) && StackOk(m.cpu) && m.cpu.sp + 2 <= STACK_END
    requires IsRun(ms) && ms[0] == Step(m, noise)
    requires forall j :: 0 <= j < |ms| ==> ms[j].cpu.sp >= m.cpu.sp + 2
    requires var last := ms[|ms| - 1]; CanStep(last) && Returns(last.cpu) && last.cpu.sp == m.cpu.sp + 2
    ensures var last, slot := ms[|ms| - 1], m.cpu.sp as int;
            var back, after := WordAlong(ms, |ms| - 1, slot), Step(last, noise').cpu;
            && after.sp == m.cpu.sp
            && after.pc == (if back <= STACK_START then back else Wrap(last.cpu.pc + 4))
            && ((forall j :: 0 <= j < |ms| - 1 ==> !Hits(ms[j].cpu, Decode(ms[j].cpu), slot)) ==> back == Wrap(m.cpu.pc + 4))
            && (STACK_START + 2 <= slot ==> back == Wrap(m.cpu.pc + 4))
  {
    hide Step, CanStep, Calls, Returns, IsRun, Read, Hits, WordAlong, Wrap, Decode;
    CallPushesReturnAddress(m, noise);
    WordIsTracked(ms, |ms| - 1, m.cpu.sp);
    ReturnPops(ms[|ms| - 1], noise');
  }

  // ---------- the first frame ----------

  /** `CALL 4`, `STM R0, 0xFDF0`, `RET` */
  const OVERWRITING: seq<UInt8> := [0x14, 0x00, 0x04, 0x00, 0x30, 0x00, 0xF0, 0xFD, 0x15, 0x00, 0x00, 0x00]

  function Overwriting(image: Memory): Exec {
    Fresh(image).(cpu := Fresh(image).cpu.(mem := Loaded(image, OVERWRITING).0))
  }

  lemma ByteIsNear(s: State, k: nat)
    requires s.pc + k < MEMORY_SIZE
    ensures ByteAt(s, k) == s.mem[s.pc + k]
  {
  }

  /** The instruction of four bytes in memory. */
  lemma DecodedFrom(s: State, b0: UInt8, b1: UInt8, b2: UInt8, b3: UInt8)
    requires s.pc + 4 <= MEMORY_SIZE
    requires s.mem[s.pc] == b0 && s.mem[s.pc + 1] == b1 && s.mem[s.pc + 2] == b2 && s.mem[s.pc + 3] == b3
    ensures Decode(s) == Instruction(b0, b1 % 16, b1 / 16, b2 % 16, Word(b2, b3))
  {
    hide ByteAt, Word;
    ByteIsNear(s, 0);
    ByteIsNear(s, 1);
    ByteIsNear(s, 2);
    ByteIsNear(s, 3);
  }

  lemma OverwritingDecoded(s: State)
    requires forall k | 0 <= k < |OVERWRITING| :: s.mem[k] == OVERWRITING[k]
    ensures s.pc == 0 ==> Decode(s) == Instruction(0x14, 0, 0, 4, 4)
    ensures s.pc == 4 ==> Decode(s) == Instruction(0x30, 0, 0, 0, STACK_START)
    ensures s.pc == 8 ==> Decode(s) == Instruction(0x15, 0, 0, 0, 0)
  {
    hide Decode;
    if s.pc == 0 {
      assert s.mem[0] == OVERWRITING[0] && s.mem[1] == OVERWRITING[1] && s.mem[2] == OVERWRITING[2] && s.mem[3] == OVERWRITING[3];
      DecodedFrom(s, 0x14, 0x00, 0x04, 0x00);
    } else if s.pc == 4 {
      assert s.mem[4] == OVERWRITING[4] && s.mem[5] == OVERWRITING[5] && s.mem[6] == OVERWRITING[6] && s.mem[7] == OVERWRITING[7];
      DecodedFrom(s, 0x30, 0x00, 0xF0, 0xFD);
    } else if s.pc == 8 {
      assert s.mem[8] == OVERWRITING[8] && s.mem[9] == OVERWRITING[9] && s.mem[10] == OVERWRITING[10] && s.mem[11] == OVERWRITING[11];
      DecodedFrom(s, 0x15, 0x00, 0x00, 0x00);
    }
  }

  /** The program is in memory, the next instruction is at `pc`, and register 0 is 0. */
  predicate Runs(m: Exec, pc: UInt16, sp: UInt16) {
    && m.cpu.pc == pc && m.cpu.sp == sp && m.cpu.regs[0] == 0
    && forall k | 0 <= k < |OVERWRITING| :: m.cpu.mem[k] == OVERWRITING[k]
  }

  lemma FirstCall(m: Exec, noise: UInt16)
    requires Runs(m, 0, STACK_START)
    ensures CanStep(m) && Calls(m.cpu, Decode(m.cpu)) && Runs(Step(m, noise), 4, STACK_START + 2)
  {
    OverwritingDecoded(m.cpu);
    hide Decode;
    assert Step(m, noise) == Call(Fetched(m), 4);
  }

  lemma ThenStore(m: Exec, noise: UInt16)
    requires Runs(m, 4, STACK_START + 2)
    ensures CanStep(m) && Hits(m.cpu, Decode(m.cpu), STACK_START)
    ensures Runs(Step(m, noise), 8, STACK_START + 2) && Read(Step(m, noise).cpu.mem, STACK_START) == 0
  {
    OverwritingDecoded(m.cpu);
    hide Decode;
    assert Step(m, noise) == StoreAt(Fetched(m), STACK_START, 0);
  }

  lemma ThenReturn(m: Exec, noise: UInt16)
    requires Runs(m, 8, STACK_START + 2) && Read(m.cpu.mem, STACK_START) == 0
    ensures CanStep(m) && Returns(m.cpu) && Step(m, noise).cpu.sp == STACK_START && Step(m, noise).cpu.pc == 0
  {
    OverwritingDecoded(m.cpu);
    assert HandlerOf(0x15) == RET;
    hide Decode, HandlerOf, Step;
    assert Returns(m.cpu) && CanStep(m);
    ReturnPops(m, noise);
  }

  /** On a new machine the return address of the first call can be lost: the call at address 0
      returns to address 0, not to 4. */
  lemma FirstReturnIsLost(image: Memory, noise: UInt16)
    ensures var m0 := Overwriting(image);
            && CanStep(m0) && Calls(m0.cpu, Decode(m0.cpu)) && m0.cpu.pc == 0
            && var m1 := Step(m0, noise);
            && CanStep(m1) && Hits(m1.cpu, Decode(m1.cpu), STACK_START)
            && var m2 := Step(m1, noise);
            && CanStep(m2) && Returns(m2.cpu) && m2.cpu.sp == m1.cpu.sp
            && Step(m2, noise).cpu.sp == m0.cpu.sp && Step(m2, noise).cpu.pc == 0
  {
    var m0 := Overwriting(image);
    assert Runs(m0, 0, STACK_START);
    FirstCall(m0, noise);
    hide Overwriting, Decode, Step, CanStep, Calls, Returns, Hits;
    var m1 := Step(m0, noise);
    ThenStore(m1, noise);
    ThenReturn(Step(m1, noise), noise);
  }
}
