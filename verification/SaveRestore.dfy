/** PUSHALL and POPALL: two loops in opposite directions that save and restore the registers. */
module SaveRestore {
  import opened Machine
  import opened Execution

  /** The stack from `base` on holds the registers from `i` on, two bytes each. */
  ghost predicate Holds(mem: Memory, base: int, regs: Registers, i: nat)
    requires i <= NB_REGISTERS && 0 <= base && base + 2 * NB_REGISTERS < MEMORY_SIZE
  {
    forall j :: i <= j < NB_REGISTERS ==> Read(mem, base + 2 * j) == regs[j]
  }

  ghost predicate SameOutside(mem: Memory, mem': Memory, lo: int, hi: int) {
    forall a :: 0 <= a < MEMORY_SIZE && !(lo <= a < hi) ==> mem'[a] == mem[a]
  }

  lemma WriteReads(mem: Memory, address: UInt16, v: UInt16)
    requires address < 0xFFFF
    ensures Read(Write(mem, address, v), address) == v
    ensures SameOutside(mem, Write(mem, address, v), address, address + 2)
  {
  }

  lemma {:induction false} PushFromStores(m: Exec, i: nat, base: int)
    requires i <= NB_REGISTERS && STACK_START <= base && m.cpu.sp == base + 2 * i
    requires base + 2 * NB_REGISTERS <= STACK_END
    ensures var s := PushFrom(m, i).cpu;
            && s == m.cpu.(mem := s.mem, sp := base + 2 * NB_REGISTERS)
            && Holds(s.mem, base, m.cpu.regs, i)
            && SameOutside(m.cpu.mem, s.mem, base + 2 * i, base + 2 * NB_REGISTERS)
    ensures PushFrom(m, i).err == m.err
    decreases NB_REGISTERS - i
  {
    hide Read, Write;
    if i < NB_REGISTERS {
      var mid := PushOne(m, i);
      WriteReads(m.cpu.mem, m.cpu.sp, m.cpu.regs[i]);
      PushFromStores(mid, i + 1, base);
      ReadsAgree(mid.cpu.mem, PushFrom(mid, i + 1).cpu.mem, base + 2 * i);
    }
  }

  lemma ReadsAgree(mem: Memory, mem': Memory, address: int)
    requires 0 <= address < 0xFFFF && mem[address] == mem'[address] && mem[address + 1] == mem'[address + 1]
    ensures Read(mem, address) == Read(mem', address)
  {
  }

  lemma {:induction false} PopBelowLoads(m: Exec, i: nat, val: UInt16, base: int, regs: Registers)
    requires i <= NB_REGISTERS && STACK_START <= base && m.cpu.sp == base + 2 * i
    requires base + 2 * NB_REGISTERS <= STACK_END && Holds(m.cpu.mem, base, regs, 0)
    requires forall j :: i <= j < NB_REGISTERS ==> m.cpu.regs[j] == regs[j]
    ensures PopBelow(m, i, val).cpu == m.cpu.(regs := regs, sp := base)
    ensures PopBelow(m, i, val).err == m.err
    decreases i
  {
    hide Read;
    if i == 0 {
      assert m.cpu.regs == regs;
    } else {
      var (after, v) := PopOne(m, i - 1, val);
      assert v == regs[i - 1];
      PopBelowLoads(after, i - 1, v, base, regs);
    }
  }

  /** With 32 bytes free on the stack, PUSHALL, then anything that leaves memory and stack
      pointer as they are, then POPALL, restores every register and the stack pointer, reports
      no error, and leaves all memory outside those 32 bytes unchanged. */
  lemma PushAllPopAll(m: Exec, between: Exec, noise: UInt16)
    requires STACK_START <= m.cpu.sp && m.cpu.sp + 32 <= STACK_END
    requires var pushed := PushFrom(m, 0).cpu; between.cpu.mem == pushed.mem && between.cpu.sp == pushed.sp
    ensures var restored := PopBelow(between, NB_REGISTERS, noise);
            && restored.cpu.regs == m.cpu.regs && restored.cpu.sp == m.cpu.sp && restored.err == between.err
            && SameOutside(m.cpu.mem, restored.cpu.mem, m.cpu.sp, m.cpu.sp + 32)
    ensures PushFrom(m, 0).cpu.regs == m.cpu.regs && PushFrom(m, 0).err == m.err
  {
    hide PushFrom, PopBelow, Holds, SameOutside;
    PushFromStores(m, 0, m.cpu.sp);
    PopBelowLoads(between, NB_REGISTERS, noise, m.cpu.sp, m.cpu.regs);
  }

  /** With less room, the registers that did not fit are not saved: PUSHALL reports an overflow
      exactly when fewer than 32 bytes are free. */
  lemma {:induction false} PushFromOverflows(m: Exec, i: nat)
    requires i <= NB_REGISTERS && m.err & STACK_OVERFLOW == 0
    ensures PushFrom(m, i).err & STACK_OVERFLOW == 0 <==> i == NB_REGISTERS || m.cpu.sp + 2 * (NB_REGISTERS - i) <= STACK_END
    decreases NB_REGISTERS - i
  {
    if i < NB_REGISTERS {
      var mid := PushOne(m, i);
      if mid.err & STACK_OVERFLOW == 0 {
        PushFromOverflows(mid, i + 1);
      } else {
        OverflowStays(mid, i + 1);
      }
    }
  }

  lemma {:induction false} OverflowStays(m: Exec, i: nat)
    requires i <= NB_REGISTERS && m.err & STACK_OVERFLOW != 0
    ensures PushFrom(m, i).err & STACK_OVERFLOW != 0
    decreases NB_REGISTERS - i
  {
    if i < NB_REGISTERS {
      OverflowStays(PushOne(m, i), i + 1);
    }
  }
}
