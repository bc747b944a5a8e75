/** The flags of the arithmetic instructions, and what a comparison followed by a conditional
    jump decides. */
module Comparisons {
  import opened Machine
  import opened Execution

  predicate Fits(v: int) {
    -0x8000 <= v < 0x8000
  }

  /** Carry means unsigned overflow. Overflow is set on every signed overflow, and besides
      whenever both operands are negative. */
  lemma AdditionFlags(fr: Flags, x: UInt16, y: UInt16)
    ensures HasFlag(AddFlags(fr, x, y), UNSIGNED_CARRY_FLAG) <==> x + y > 0xFFFF
    ensures HasFlag(AddFlags(fr, x, y), SIGNED_OVERFLOW_FLAG) <==>
              !Fits(Signed(x) + Signed(y)) || (Negative(x) && Negative(y))
  {
    FlagsAreIndependent();
  }

  /** Carry means borrow. Overflow is set on every signed overflow, and besides whenever the
      left operand is negative. */
  lemma SubtractionFlags(fr: Flags, x: UInt16, y: UInt16)
    ensures HasFlag(SubFlags(fr, x, y), UNSIGNED_CARRY_FLAG) <==> x < y
    ensures HasFlag(SubFlags(fr, x, y), SIGNED_OVERFLOW_FLAG) <==> !Fits(Signed(x) - Signed(y)) || Negative(x)
  {
    FlagsAreIndependent();
    var result := (x - y) % 0x1_0000_0000;
    if x >= y {
      assert result == x - y;
    } else {
      assert result == x - y + 0x1_0000_0000;
      assert result / 0x1_0000 == 0xFFFF;
    }
    assert Wrap(result) == Wrap(x - y);
  }

  /** The overflow flag of an addition means signed overflow exactly when the operands are not two
      negative numbers whose sum fits. */
  lemma AdditionOverflowRightExactly(fr: Flags, x: UInt16, y: UInt16)
    ensures (HasFlag(AddFlags(fr, x, y), SIGNED_OVERFLOW_FLAG) <==> !Fits(Signed(x) + Signed(y))) <==>
              !(Negative(x) && Negative(y) && Fits(Signed(x) + Signed(y)))
  {
    AdditionFlags(fr, x, y);
    hide HasFlag, AddFlags;
  }

  /** -1 + -1 fits, and sets the flag. */
  lemma SmallSumOverflows(fr: Flags)
    ensures Fits(Signed(0xFFFF) + Signed(0xFFFF)) && HasFlag(AddFlags(fr, 0xFFFF, 0xFFFF), SIGNED_OVERFLOW_FLAG)
  {
    AdditionFlags(fr, 0xFFFF, 0xFFFF);
    hide HasFlag, AddFlags;
  }

  /** That of a subtraction does exactly when the left operand is not a negative number from which
      the right one can be taken. */
  lemma SubtractionOverflowRightExactly(fr: Flags, x: UInt16, y: UInt16)
    ensures (HasFlag(SubFlags(fr, x, y), SIGNED_OVERFLOW_FLAG) <==> !Fits(Signed(x) - Signed(y))) <==>
              !(Negative(x) && Fits(Signed(x) - Signed(y)))
  {
    SubtractionFlags(fr, x, y);
    hide HasFlag, SubFlags;
  }

  /** -0x7FFF - 0 fits, and sets the flag. */
  lemma SmallDifferenceOverflows(fr: Flags)
    ensures Fits(Signed(0x8001) - Signed(0)) && HasFlag(SubFlags(fr, 0x8001, 0), SIGNED_OVERFLOW_FLAG)
  {
    SubtractionFlags(fr, 0x8001, 0);
    hide HasFlag, SubFlags;
  }

  /** Carry means a product of more than 16 bits. */
  lemma MultiplicationFlags(fr: Flags, x: UInt16, y: UInt16)
    ensures HasFlag(MulFlags(fr, x, y), UNSIGNED_CARRY_FLAG) <==> x * y > 0xFFFF
  {
    FlagsAreIndependent();
  }

  /** Carry means a remainder. */
  lemma DivisionFlags(fr: Flags, x: UInt16, y: UInt16)
    requires y != 0
    ensures HasFlag(DivFlags(fr, x, y), UNSIGNED_CARRY_FLAG) <==> x % y != 0
  {
    FlagsAreIndependent();
  }

  predicate IsMask(mask: Flags) {
    mask == 2 || mask == 4 || mask == 64 || mask == 128
  }

  /** Setting or clearing one flag changes that flag and no other. */
  lemma FlagsAreIndependent()
    ensures forall fr: Flags, mask: Flags, on: bool | IsMask(mask) :: HasFlag(WithFlag(fr, mask, on), mask) == on
    ensures forall fr: Flags, mask: Flags, on: bool, other: Flags | IsMask(mask) && IsMask(other) && other != mask ::
              HasFlag(WithFlag(fr, mask, on), other) == HasFlag(fr, other)
  {
  }

  // ---------- compare and jump ----------

  /** The flags a comparison of `x` with `y` leaves. */
  function CompareFlags(fr: Flags, x: UInt16, y: UInt16): Flags {
    SignZeroFlags(SubFlags(fr, x, y), Wrap(x - y))
  }

  lemma CompareSets(fr: Flags, x: UInt16, y: UInt16)
    ensures var f := CompareFlags(fr, x, y);
            && (HasFlag(f, UNSIGNED_CARRY_FLAG) <==> x < y)
            && (HasFlag(f, ZERO_FLAG) <==> x == y)
            && (HasFlag(f, SIGNED_OVERFLOW_FLAG) <==> !Fits(Signed(x) - Signed(y)) || Negative(x))
            && (HasFlag(f, NEGATIVE_FLAG) <==> Negative(Wrap(x - y)))
  {
    hide SubFlags, HasFlag, WithFlag, Negative, Fits;
    var sub := SubFlags(fr, x, y);
    var z := WithFlag(sub, ZERO_FLAG, Wrap(x - y) == 0);
    SubtractionFlags(fr, x, y);
    FlagsAreIndependent();
    assert IsMask(UNSIGNED_CARRY_FLAG) && IsMask(ZERO_FLAG) && IsMask(SIGNED_OVERFLOW_FLAG) && IsMask(NEGATIVE_FLAG);
    assert CompareFlags(fr, x, y) == WithFlag(z, NEGATIVE_FLAG, Negative(Wrap(x - y)));
    assert Wrap(x - y) == 0 <==> x == y;
  }

  /** What each condition code decides after a comparison of `x` with `y`. The unsigned codes
      and equality mean what their names say. `L` holds for every signed x < y, but also
      whenever `x` is negative or the difference overflows; `GE` is its negation; `A` never holds
      of a negative `x`, and `G` only of equal operands. */
  lemma ConditionsAfterCompare(fr: Flags, x: UInt16, y: UInt16)
    ensures var f, sx, sy := CompareFlags(fr, x, y), Signed(x), Signed(y);
            && (Condition(f, 0x0) <==> x == y)   // Z
            && (Condition(f, 0x1) <==> x != y)   // NZ
            && (Condition(f, 0x8) <==> x >= y)   // AE
            && (Condition(f, 0x9) <==> x < y)    // B
            && (Condition(f, 0xA) <==> x <= y)   // BE
            && (Condition(f, 0x7) <==> x != y && sx >= 0 && Fits(sx - sy))                // A
            && (Condition(f, 0xB) <==> x == y && sx >= 0)                                 // G
            && (Condition(f, 0xC) <==> sx >= sy && sx >= 0 && Fits(sx - sy))              // GE
            && (Condition(f, 0xD) <==> sx < sy || sx < 0 || !Fits(sx - sy))               // L
            && (Condition(f, 0xE) <==> sx <= sy || sx < 0 || !Fits(sx - sy))              // LE
            && (Condition(f, 0x2) <==> x - y >= 0x8000 || -0x8000 <= x - y < 0)           // N
            && (Condition(f, 0x3) <==> 0 <= x - y < 0x8000 || x - y < -0x8000)            // NN
            && (Condition(f, 0x4) <==> 0 < x - y < 0x8000 || x - y < -0x8000)             // P
            && (Condition(f, 0x5) <==> sx < 0 || !Fits(sx - sy))                          // O
            && (Condition(f, 0x6) <==> sx >= 0 && Fits(sx - sy))                          // NO
            && !Condition(f, 0xF)
  {
    hide CompareFlags, HasFlag;
    CompareSets(fr, x, y);
  }

  /** The condition codes whose names promise an unsigned comparison or equality, and what they
      promise. */
  predicate Promises(code: Nibble, x: UInt16, y: UInt16) {
    match code
    case 0x0 => x == y
    case 0x1 => x != y
    case 0x8 => x >= y
    case 0x9 => x < y
    case _ => x <= y
  }

  /** Comparing two operands and then jumping on an unsigned condition: the jump to a legal
      target is taken exactly when the condition holds of the operands compared. */
  lemma CompareThenJump(m: Exec, noise: UInt16, noise': UInt16)
    requires CanStep(m) && HandlerOf(Decode(m.cpu).opcode).Discard? && HandlerOf(Decode(m.cpu).opcode).op.Sub?
    requires var next := Step(m, noise); CanStep(next) && HandlerOf(Decode(next.cpu).opcode) == Jx
    requires var jump := Decode(Step(m, noise).cpu); jump.first in {0x0, 0x1, 0x8, 0x9, 0xA} && jump.imm <= STACK_START
    ensures var compare, next := Decode(m.cpu), Step(m, noise);
            var x, y := m.cpu.regs[compare.first], Right(m.cpu, compare, HandlerOf(compare.opcode).mode);
            var jump, after := Decode(next.cpu), Step(next, noise');
            && after.cpu.pc == (if Promises(jump.first, x, y) then jump.imm else Wrap(m.cpu.pc + 8))
            && after.cpu.regs == m.cpu.regs && after.cpu.mem == m.cpu.mem && after.cpu.sp == m.cpu.sp
  {
    hide HandlerOf, Decode, Condition, SubFlags, SignZeroFlags, Defined;
    var compare, next := Decode(m.cpu), Step(m, noise);
    var x, y := m.cpu.regs[compare.first], Right(m.cpu, compare, HandlerOf(compare.opcode).mode);
    assert next.cpu == Fetched(m).cpu.(fr := CompareFlags(m.cpu.fr, x, y));
    ConditionsAfterCompare(m.cpu.fr, x, y);
  }

  /** What the codes for an unsigned or signed order promise that are not always right. */
  predicate Named(code: Nibble, x: UInt16, y: UInt16) {
    match code
    case 0x7 => x > y                    // A
    case 0xB => Signed(x) > Signed(y)    // G
    case 0xC => Signed(x) >= Signed(y)   // GE
    case 0xD => Signed(x) < Signed(y)    // L
    case _ => Signed(x) <= Signed(y)     // LE
  }

  /** After a comparison of `x` with `y` the code `code` decides what it is named for. */
  predicate IsRight(fr: Flags, code: Nibble, x: UInt16, y: UInt16) {
    Condition(CompareFlags(fr, x, y), code) == Named(code, x, y)
  }

  /** When each of these codes is right. */
  lemma OrdersRightExactly(fr: Flags, x: UInt16, y: UInt16)
    ensures var sx, sy := Signed(x), Signed(y);
            && (IsRight(fr, 0x7, x, y) <==> x == y || (if x > y then sx >= 0 else sx < 0 || !Fits(sx - sy)))
            && (IsRight(fr, 0xB, x, y) <==> sx < sy || (x == y && sx < 0))
            && (IsRight(fr, 0xC, x, y) <==> sx < sy || (sx >= 0 && Fits(sx - sy)))
            && (IsRight(fr, 0xD, x, y) <==> sx < sy || (sx >= 0 && Fits(sx - sy)))
            && (IsRight(fr, 0xE, x, y) <==> sx <= sy || (sx >= 0 && Fits(sx - sy)))
  {
    hide CompareFlags, HasFlag, Condition;
    ConditionsAfterCompare(fr, x, y);
  }

  /** `A` does not see that 0x8000 is above 1, and takes 1 to be above 2; `G` does not see that 2 is
      greater than 1, nor `GE` that -1 is at least -2; `L` and `LE` take -1 to be less than -2. */
  lemma OrdersGoWrong(fr: Flags)
    ensures !Condition(CompareFlags(fr, 0x8000, 1), 0x7) && Condition(CompareFlags(fr, 1, 2), 0x7)
    ensures !Condition(CompareFlags(fr, 2, 1), 0xB)
    ensures !Condition(CompareFlags(fr, 0xFFFF, 0xFFFE), 0xC)
    ensures Condition(CompareFlags(fr, 0xFFFF, 0xFFFE), 0xD) && Condition(CompareFlags(fr, 0xFFFF, 0xFFFE), 0xE)
  {
    hide CompareFlags, HasFlag, Condition;
    ConditionsAfterCompare(fr, 0x8000, 1);
    ConditionsAfterCompare(fr, 1, 2);
    ConditionsAfterCompare(fr, 2, 1);
    ConditionsAfterCompare(fr, 0xFFFF, 0xFFFE);
  }
}
