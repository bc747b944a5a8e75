/** The interpreter: fetches an instruction and runs its handler on the processor. */
module Interpreter {
  import opened Machine
  import opened Execution
  import opened Cpu

  class Interpreter {
    var mErrorCode: ErrorCode
    const mCPU: CPU

    ghost function Footprint(): set<object> {
      {this, mCPU, mCPU.mRegisters, mCPU.mMemory}
    }

    ghost predicate Valid() {
      mCPU.Valid()
    }

    ghost function State(): Exec
      requires Valid()
      reads Footprint()
    {
      Exec(mCPU.State(), mErrorCode)
    }

    /** A new machine whose memory happens to hold `image`. */
    constructor (image: Memory)
      ensures Valid() && fresh(Footprint() - {this})
      ensures State() == Fresh(image)
    {
      mErrorCode := NO_ERROR;
      mCPU := new CPU(image);
    }

    method AcquireProgram(program: seq<UInt8>) returns (err: ErrorCode)
      requires Valid()
      modifies mCPU.mMemory
      ensures (State().cpu.mem, err) == Loaded(old(State().cpu.mem), program)
      ensures State() == old(State()).(cpu := old(State().cpu).(mem := State().cpu.mem))
    {
      err := mCPU.InitMemory(program);
    }

    method FetchInstruction() returns (i: Instruction)
      requires Valid()
      modifies mCPU
      ensures i == Decode(old(mCPU.State())) && State() == Fetched(old(State()))
    {
      var bytes: seq<UInt8> := [];
      for k := 0 to 4
        invariant mCPU.mPC == Wrap(old(mCPU.mPC) + k)
        invariant mCPU.State() == old(mCPU.State()).(pc := mCPU.mPC)
        invariant |bytes| == k && forall j :: 0 <= j < k ==> bytes[j] == ByteAt(old(mCPU.State()), j)
      {
        bytes := bytes + [mCPU.mMemory[mCPU.mPC]];
        mCPU.mPC := Wrap(mCPU.mPC + 1);
      }
      i := Instruction(bytes[0], bytes[1] % 16, bytes[1] / 16, bytes[2] % 16, Word(bytes[2], bytes[3]));
    }

    method InterpretOne(noise: UInt16) returns (err: ErrorCode)
      requires Valid() && CanStep(State())
      modifies Footprint()
      ensures State() == Step(old(State()), noise) && err == mErrorCode
    {
      hide Execute, Decode, HandlerOf;
      var i := FetchInstruction();
      Dispatch(i, noise);
      return mErrorCode;
    }

    /** The table of handlers. */
    method Dispatch(i: Instruction, noise: UInt16)
      requires Valid() && Defined(State().cpu, i)
      modifies Footprint()
      ensures State() == Execute(old(State()), i, noise)
    {
      hide HandlerOf, Execution.BinaryArithmetic, Execution.DiscardArithmetic, Execution.UnaryArithmetic;
      hide Execution.ShiftArithmetic, Execution.WriteResult, PushFrom, PopBelow;
      hide SetReg, SetPC, SetSP, Push, Pop, Load, Store, Condition;
      match HandlerOf(i.opcode) {
        case NOP =>
        case RND => RND(i, noise);
        case DirectJMP => DirectJMP(i);
        case JMC => JMC(i);
        case Jx => Jx(i);
        case JME => JME(i);
        case DirectCALL => DirectCALL(i);
        case RET => RET(noise);
        case IndirectJMP => IndirectJMP(i);
        case Cx => Cx(i);
        case IndirectCALL => IndirectCALL(i);
        case RegisterLDI => RegisterLDI(i);
        case StackLDI => StackLDI(i);
        case DirectLDM => DirectLDM(i, noise);
        case IndirectLDM => IndirectLDM(i, noise);
        case MOV => MOV(i);
        case DirectSTM => DirectSTM(i);
        case IndirectSTM => IndirectSTM(i);
        case PUSH => PUSH(i);
        case POP => POP(i, noise);
        case PUSHALL => PUSHALL();
        case POPALL => POPALL(noise);
        case PUSHF => PUSHF();
        case POPF => POPF(noise);
        case Binary(op, mode) => BinaryArithmetic(i, op, mode);
        case Discard(op, mode) => DiscardArithmetic(i, op, mode);
        case Unary(op, mode) => UnaryArithmetic(i, op, mode);
        case Shift(op, byRegister) => ShiftArithmetic(i, op, byRegister);
        case UnknownOp => mErrorCode := UNKNOWN_OP_ERROR;
      }
    }

    // ---------- jumps and calls ----------

    method DirectJMP(i: Instruction)
      requires Valid()
      modifies Footprint()
      ensures State() == Jump(old(State()), i.imm)
    {
      mErrorCode := mCPU.SetProgramCounter(i.imm);
    }

    method JMC(i: Instruction)
      requires Valid()
      modifies Footprint()
      ensures State() == if HasFlag(old(mCPU.mFR), UNSIGNED_CARRY_FLAG) then Jump(old(State()), i.imm) else old(State())
    {
      if mCPU.mFR & UNSIGNED_CARRY_FLAG != 0 {
        mErrorCode := mCPU.SetProgramCounter(i.imm);
      }
    }

    method Jx(i: Instruction)
      requires Valid()
      modifies Footprint()
      ensures State() == if Condition(old(mCPU.mFR), i.first) then QuietJump(old(State()), i.imm) else old(State())
    {
      if Condition(mCPU.mFR, i.first) {
        var _ := mCPU.SetProgramCounter(i.imm);
      }
    }

    method JME(i: Instruction)
      requires Valid()
      modifies Footprint()
      ensures State() == if old(mCPU.mRegisters[i.first]) == old(mCPU.mRegisters[i.second])
                         then Jump(old(State()), i.imm) else old(State())
    {
      var xVal, yVal := mCPU.mRegisters[i.first], mCPU.mRegisters[i.second];
      if xVal == yVal {
        mErrorCode := mCPU.SetProgramCounter(i.imm);
      }
    }

    /** Pushes the return address, then jumps, whether or not the push worked. */
    method CallTarget(target: UInt16)
      requires Valid()
      modifies Footprint()
      ensures State() == Call(old(State()), target)
    {
      mErrorCode := mCPU.PushPC();
      var err := mCPU.SetProgramCounter(target);
      mErrorCode := mErrorCode | err;
    }

    method DirectCALL(i: Instruction)
      requires Valid()
      modifies Footprint()
      ensures State() == Call(old(State()), i.imm)
    {
      CallTarget(i.imm);
    }

    method RET(noise: UInt16)
      requires Valid()
      modifies Footprint()
      ensures State() == Return(old(State()), noise)
    {
      var val, err := mCPU.Pop(noise);
      var err' := mCPU.SetProgramCounter(val);
      mErrorCode := err | err';
    }

    method IndirectJMP(i: Instruction)
      requires Valid()
      modifies Footprint()
      ensures State() == Jump(old(State()), old(mCPU.mRegisters[i.first]))
    {
      mErrorCode := mCPU.SetProgramCounter(mCPU.mRegisters[i.first]);
    }

    method Cx(i: Instruction)
      requires Valid()
      modifies Footprint()
      ensures State() == if Condition(old(mCPU.mFR), i.first) then Call(old(State()), i.imm) else old(State())
    {
      if Condition(mCPU.mFR, i.first) {
        CallTarget(i.imm);
      }
    }

    method IndirectCALL(i: Instruction)
      requires Valid()
      modifies Footprint()
      ensures State() == Call(old(State()), old(mCPU.mRegisters[i.first]))
    {
      CallTarget(mCPU.mRegisters[i.first]);
    }

    // ---------- loads and stores ----------

    method RegisterLDI(i: Instruction)
      requires Valid()
      modifies Footprint()
      ensures State() == SetRegister(old(State()), i.first, i.imm)
    {
      mErrorCode := mCPU.SetRegister(i.first, i.imm);
    }

    method StackLDI(i: Instruction)
      requires Valid()
      modifies Footprint()
      ensures (State().cpu, mErrorCode) == SetSP(old(State().cpu), i.imm)
    {
      mErrorCode := mCPU.SetStackPointer(i.imm);
    }

    method DirectLDM(i: Instruction, noise: UInt16)
      requires Valid()
      modifies Footprint()
      ensures State() == LoadDirect(old(State()), i.first, i.imm, noise)
    {
      var val, err := mCPU.Load(i.imm, noise);
      var err' := mCPU.SetRegister(i.first, val);
      mErrorCode := err | err';
    }

    method IndirectLDM(i: Instruction, noise: UInt16)
      requires Valid()
      modifies Footprint()
      ensures State() == LoadIndirect(old(State()), i.first, old(mCPU.mRegisters[i.second]), noise)
    {
      var val;
      val, mErrorCode := mCPU.Load(mCPU.mRegisters[i.second], noise);
      mErrorCode := mCPU.SetRegister(i.first, val);
    }

    method MOV(i: Instruction)
      requires Valid()
      modifies Footprint()
      ensures State() == SetRegister(old(State()), i.first, old(mCPU.mRegisters[i.second]))
    {
      var yVal := mCPU.mRegisters[i.second];
      mErrorCode := mCPU.SetRegister(i.first, yVal);
    }

    /** A random number no greater than the immediate value. */
    method RND(i: Instruction, noise: UInt16)
      requires Valid()
      modifies Footprint()
      ensures State() == SetRegister(old(State()), i.first, noise % (i.imm + 1))
    {
      mErrorCode := mCPU.SetRegister(i.first, noise % (i.imm + 1));
    }

    method DirectSTM(i: Instruction)
      requires Valid()
      modifies Footprint()
      ensures State() == StoreAt(old(State()), i.imm, old(mCPU.mRegisters[i.first]))
    {
      mErrorCode := mCPU.Store(i.imm, mCPU.mRegisters[i.first]);
    }

    method IndirectSTM(i: Instruction)
      requires Valid()
      modifies Footprint()
      ensures State() == StoreAt(old(State()), old(mCPU.mRegisters[i.second]), old(mCPU.mRegisters[i.first]))
    {
      var xVal, yVal := mCPU.mRegisters[i.first], mCPU.mRegisters[i.second];
      mErrorCode := mCPU.Store(yVal, xVal);
    }

    // ---------- the stack ----------

    method PUSH(i: Instruction)
      requires Valid()
      modifies Footprint()
      ensures State() == PushValue(old(State()), old(mCPU.mRegisters[i.first]))
    {
      mErrorCode := mCPU.Push(mCPU.mRegisters[i.first]);
    }

    method POP(i: Instruction, noise: UInt16)
      requires Valid()
      modifies Footprint()
      ensures State() == Execution.PopRegister(old(State()), i.first, noise)
    {
      var val, err := mCPU.Pop(noise);
      var err' := mCPU.SetRegister(i.first, val);
      mErrorCode := err | err';
    }

    method PUSHALL()
      requires Valid()
      modifies Footprint()
      ensures State() == PushFrom(old(State()), 0)
    {
      hide PushOne;
      for i := 0 to NB_REGISTERS
        invariant PushFrom(State(), i) == PushFrom(old(State()), 0)
      {
        PushRegister(i);
      }
    }

    /** One turn of the loop over the registers. */
    method PushRegister(i: Nibble)
      requires Valid()
      modifies Footprint()
      ensures State() == PushOne(old(State()), i)
    {
      hide Push;
      var err := mCPU.Push(mCPU.mRegisters[i]);
      mErrorCode := mErrorCode | err;
    }

    method POPALL(noise: UInt16)
      requires Valid()
      modifies Footprint()
      ensures State() == PopBelow(old(State()), NB_REGISTERS, noise)
    {
      hide PopOne;
      var val := noise;
      for i := NB_REGISTERS downto 0
        invariant PopBelow(State(), i, val) == PopBelow(old(State()), NB_REGISTERS, noise)
      {
        val := PopRegister(i, val);
      }
    }

    /** One turn of the loop over the registers. */
    method PopRegister(i: Nibble, last: UInt16) returns (val: UInt16)
      requires Valid()
      modifies Footprint()
      ensures (State(), val) == PopOne(old(State()), i, last)
    {
      hide Pop, SetReg;
      var err;
      val, err := mCPU.Pop(last);
      var err' := mCPU.SetRegister(i, val);
      mErrorCode := mErrorCode | err | err';
    }

    method PUSHF()
      requires Valid()
      modifies Footprint()
      ensures State() == PushValue(old(State()), old(mCPU.mFR) as UInt16)
    {
      mErrorCode := mCPU.Push(mCPU.mFR as UInt16);
    }

    method POPF(noise: UInt16)
      requires Valid()
      modifies Footprint()
      ensures State() == PopFlags(old(State()), noise)
    {
      var val;
      val, mErrorCode := mCPU.Pop(noise);
      mCPU.SetFlagRegister(val);
    }

    // ---------- arithmetic ----------

    /** The carry and overflow handler of an operation, if it has one. */
    method SetCarryOverflowFlags(op: AluOp, x: UInt16, y: UInt16)
      requires Valid() && (op.Div? || op.Mod? ==> y != 0)
      modifies mCPU
      ensures State() == old(State()).(cpu := old(State().cpu).(fr := AluFlags(op, old(mCPU.mFR), x, y)))
    {
      match op {
        case Add => mCPU.SetCarryOverflowFlagAdd(x, y);
        case Sub => mCPU.SetCarryOverflowFlagSub(x, y);
        case Mul => mCPU.SetCarryOverflowFlagMul(x, y);
        case Div => mCPU.SetCarryOverflowFlagDiv(x, y);
        case _ =>
      }
    }

    method WriteResult(reg: Nibble, result: UInt16)
      requires Valid()
      modifies Footprint()
      ensures State() == Execution.WriteResult(old(State()), reg, result)
    {
      hide SignZeroFlags;
      mErrorCode := mCPU.SetRegister(reg, result);
      mCPU.SetSignZeroFlag(mCPU.mRegisters[reg]);
    }

    method BinaryArithmetic(i: Instruction, op: AluOp, mode: Mode)
      requires Valid() && (op.Div? || op.Mod? ==> Right(State().cpu, i, mode) != 0)
      modifies Footprint()
      ensures State() == Execution.BinaryArithmetic(old(State()), i, op, mode)
    {
      hide AluFlags, Alu, Execution.WriteResult;
      var xVal := mCPU.mRegisters[i.first];
      var yVal := if mode.Immediate? then i.imm else mCPU.mRegisters[i.second];
      SetCarryOverflowFlags(op, xVal, yVal);
      WriteResult(if mode.Basic? then i.third else i.first, Alu(op, xVal, yVal));
    }

    method DiscardArithmetic(i: Instruction, op: AluOp, mode: Mode)
      requires Valid() && (op.Div? || op.Mod? ==> Right(State().cpu, i, mode) != 0)
      modifies Footprint()
      ensures State() == Execution.DiscardArithmetic(old(State()), i, op, mode)
    {
      hide AluFlags, Alu, SignZeroFlags;
      var xVal := mCPU.mRegisters[i.first];
      var yVal := if mode.Immediate? then i.imm else mCPU.mRegisters[i.second];
      SetCarryOverflowFlags(op, xVal, yVal);
      mCPU.SetSignZeroFlag(Alu(op, xVal, yVal));
    }

    method UnaryArithmetic(i: Instruction, op: UnaryOp, mode: Mode)
      requires Valid()
      modifies Footprint()
      ensures State() == Execution.UnaryArithmetic(old(State()), i, op, mode)
    {
      hide UnaryAlu, Execution.WriteResult;
      var v := match mode
               case Immediate => i.imm
               case Inplace => mCPU.mRegisters[i.first]
               case Basic => mCPU.mRegisters[i.second];
      WriteResult(i.first, UnaryAlu(op, v));
    }

    method ShiftArithmetic(i: Instruction, op: ShiftOp, byRegister: bool)
      requires Valid()
      modifies Footprint()
      ensures State() == Execution.ShiftArithmetic(old(State()), i, op, byRegister)
    {
      hide Shifted, Execution.WriteResult;
      var count := if byRegister then mCPU.mRegisters[i.second] else i.third;
      WriteResult(i.first, Shifted(op, mCPU.mRegisters[i.first], count));
    }
  }
}
