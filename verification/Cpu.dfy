/** The central processing unit itself, with its registers and memory updated in place. */
module Cpu {
  import opened Machine
  import M = Machine

  class CPU {
    var mFR: Flags
    var mPC: UInt16
    var mSP: UInt16
    const mRegisters: array<UInt16>
    const mMemory: array<UInt8>

    ghost predicate Valid() {
      mRegisters.Length == NB_REGISTERS && mMemory.Length == MEMORY_SIZE
    }

    ghost function State(): M.State
      requires Valid()
      reads this, mRegisters, mMemory
    {
      M.State(mPC, mSP, mFR, mRegisters[..], mMemory[..])
    }

    /** Memory is not initialized by the processor: `image` stands for what it holds. */
    constructor (image: Memory)
      ensures Valid() && fresh(mRegisters) && fresh(mMemory)
      ensures State() == M.State(0, STACK_START, 0, seq(NB_REGISTERS, _ => 0), image)
    {
      mFR, mPC, mSP := 0, 0, STACK_START;
      mRegisters := new UInt16[NB_REGISTERS](_ => 0);
      mMemory := new UInt8[MEMORY_SIZE](i requires 0 <= i < MEMORY_SIZE => image[i]);
    }

    /** Loads a program at address 0. */
    method InitMemory(program: seq<UInt8>) returns (err: ErrorCode)
      requires Valid()
      modifies mMemory
      ensures (mMemory[..], err) == Loaded(old(mMemory[..]), program)
    {
      if program == [] {
        return EMPTY_ROM_ERROR;
      } else if |program| > MEMORY_SIZE {
        return ROM_OVERFLOW_ERROR;
      }
      ghost var before := mMemory[..];
      for i := 0 to |program|
        invariant forall k | 0 <= k < MEMORY_SIZE :: mMemory[k] == if k < i then program[k] else before[k]
      {
        mMemory[i] := program[i];
      }
      assert mMemory[..] == program + before[|program|..];
      return NO_ERROR;
    }

    method Load(address: UInt16, noise: UInt16) returns (value: UInt16, err: ErrorCode)
      requires Valid()
      ensures (value, err) == M.Load(State(), address, noise)
    {
      if STACK_START < address < STACK_END {
        return noise, MEMORY_ERROR;
      }
      var high := if address == 0xFFFF then High(noise) else mMemory[address + 1];
      return Word(mMemory[address], high), NO_ERROR;
    }

    method Store(address: UInt16, value: UInt16) returns (err: ErrorCode)
      requires Valid()
      modifies mMemory
      ensures (State(), err) == M.Store(old(State()), address, value)
    {
      if address > STACK_START {
        return MEMORY_ERROR;
      }
      mMemory[address] := Low(value);
      mMemory[address + 1] := High(value);
      return NO_ERROR;
    }

    method Push(value: UInt16) returns (err: ErrorCode)
      requires Valid()
      modifies this, mMemory
      ensures (State(), err) == M.Push(old(State()), value)
    {
      if mSP + 2 > STACK_END {
        return STACK_OVERFLOW;
      }
      mMemory[mSP] := Low(value);
      mSP := mSP + 1;
      mMemory[mSP] := High(value);
      mSP := mSP + 1;
      return NO_ERROR;
    }

    method Pop(noise: UInt16) returns (value: UInt16, err: ErrorCode)
      requires Valid()
      modifies this
      ensures (State(), value, err) == M.Pop(old(State()), noise)
    {
      if mSP - 2 < STACK_START {
        return noise, STACK_UNDERFLOW;
      }
      mSP := mSP - 1;
      var high := mMemory[mSP];
      mSP := mSP - 1;
      var low := mMemory[mSP];
      return Word(low, high), NO_ERROR;
    }

    method PushPC() returns (err: ErrorCode)
      requires Valid()
      modifies this, mMemory
      ensures (State(), err) == M.Push(old(State()), old(mPC))
    {
      err := Push(mPC);
    }

    method SetProgramCounter(value: UInt16) returns (err: ErrorCode)
      requires Valid()
      modifies `mPC
      ensures (State(), err) == SetPC(old(State()), value)
    {
      if value > STACK_START {
        return MEMORY_ERROR;
      }
      mPC := value;
      return NO_ERROR;
    }

    method SetStackPointer(value: UInt16) returns (err: ErrorCode)
      requires Valid()
      modifies `mSP
      ensures (State(), err) == SetSP(old(State()), value)
    {
      if value < STACK_START || value > STACK_END {
        return MEMORY_ERROR;
      }
      mSP := value;
      return NO_ERROR;
    }

    method SetRegister(id: UInt8, value: UInt16) returns (err: ErrorCode)
      requires Valid()
      modifies mRegisters
      ensures (State(), err) == SetReg(old(State()), id, value)
    {
      if id >= NB_REGISTERS {
        return UNKNOWN_REGISTER;
      }
      mRegisters[id] := value;
      return NO_ERROR;
    }

    /** The flag register has eight bits only. */
    method SetFlagRegister(value: UInt16)
      requires Valid()
      modifies `mFR
      ensures State() == old(State()).(fr := Low(value) as bv8)
    {
      mFR := (value % 0x100) as bv8;
    }

    method SetSignZeroFlag(result: UInt16)
      requires Valid()
      modifies `mFR
      ensures State() == old(State()).(fr := SignZeroFlags(old(mFR), result))
    {
      mFR := WithFlag(mFR, ZERO_FLAG, result == 0);
      mFR := WithFlag(mFR, NEGATIVE_FLAG, result >= 0x8000);
    }

    method SetCarryOverflowFlagAdd(op1: UInt16, op2: UInt16)
      requires Valid()
      modifies `mFR
      ensures State() == old(State()).(fr := AddFlags(old(mFR), op1, op2))
    {
      var result := Wrap(op1 + op2);
      mFR := WithFlag(mFR, UNSIGNED_CARRY_FLAG, result < op1);
      var op1Signed, op2Signed := Signed(op1), Signed(op2);
      mFR := WithFlag(mFR, SIGNED_OVERFLOW_FLAG,
                      (op1Signed < 0 && op2Signed < 0) || (Negative(result) && op1Signed >= 0 && op2Signed >= 0));
    }

    method SetCarryOverflowFlagDiv(op1: UInt16, op2: UInt16)
      requires Valid() && op2 != 0
      modifies `mFR
      ensures State() == old(State()).(fr := DivFlags(old(mFR), op1, op2))
    {
      mFR := WithFlag(mFR, UNSIGNED_CARRY_FLAG, op1 % op2 != 0);
    }

    method SetCarryOverflowFlagMul(op1: UInt16, op2: UInt16)
      requires Valid()
      modifies `mFR
      ensures State() == old(State()).(fr := MulFlags(old(mFR), op1, op2))
    {
      var result := op1 * op2;
      mFR := WithFlag(mFR, UNSIGNED_CARRY_FLAG, result > 0xFFFF);
    }

    method SetCarryOverflowFlagSub(op1: UInt16, op2: UInt16)
      requires Valid()
      modifies `mFR
      ensures State() == old(State()).(fr := SubFlags(old(mFR), op1, op2))
    {
      var result := (op1 - op2) % 0x1_0000_0000;
      mFR := WithFlag(mFR, UNSIGNED_CARRY_FLAG, (result / 0x1_0000) % 2 == 1);
      mFR := WithFlag(mFR, SIGNED_OVERFLOW_FLAG, Negative(op1) || (Negative(Wrap(result)) && Negative(op2)));
    }
  }
}
