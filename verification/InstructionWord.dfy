/** An instruction as the 32-bit word it is stored in: the getters that take it apart and the
    setters that put it together. A setter can only add bits, and some do nothing, depending on
    the opcode. */
module InstructionWord {
  import M = Machine
  import E = Execution

  // ---------- the fields of a word ----------

  function Opcode(w: bv32): bv8 { (w >> 24) as bv8 }

  function FirstOperand(w: bv32): bv8 { ((w >> 16) & 0xF) as bv8 }

  function SecondOperand(w: bv32): bv8 { ((w >> 20) & 0xF) as bv8 }

  function ThirdOperand(w: bv32): bv8 { ((w >> 8) & 0xF) as bv8 }

  function ImmediateValue(w: bv32): bv16 { (((w << 8) & 0xFF00) | ((w >> 8) & 0xFF)) as bv16 }

  predicate UseImmediateValue(w: bv32) { w & 0x0F00_0000 == 0 }

  predicate IsInplace(w: bv32) { w >= 0x5000_0000 && w & 0x0100_0000 != 0 }

  // ---------- setting them ----------

  predicate FourBits(v: bv8) { v & 0xF0 == 0 }

  /** What a setter is asked to set. The setters of operands assert that four bits are enough. */
  datatype Setting = First(v: bv8) | Second(v: bv8) | Third(v: bv8) | Immediate(value: bv16)
  {
    predicate Valid() { Immediate? || FourBits(v) }
  }

  /** The bits that a setting stands for, where it is heeded. */
  function BitsOf(s: Setting): bv32 {
    match s
    case First(v) => v as bv32 << 16
    case Second(v) => v as bv32 << 20
    case Third(v) => v as bv32 << 8
    case Immediate(value) => ((value as bv32 << 8) & 0xFF00) | ((value as bv32 >> 8) & 0xFF)
  }

  /** Whether a setting is heeded: this depends on the opcode only. */
  predicate Heeds(w: bv32, s: Setting) {
    match s
    case First(_) => true
    case Second(_) => !UseImmediateValue(w)
    case Third(_) => !UseImmediateValue(w) && !IsInplace(w)
    case Immediate(_) => UseImmediateValue(w)
  }

  function Or32(a: bv32, b: bv32): bv32 { a | b }

  function Set(w: bv32, s: Setting): bv32 {
    if Heeds(w, s) then Or32(w, BitsOf(s)) else w
  }

  function SetAll(w: bv32, settings: seq<Setting>): bv32
    decreases |settings|
  {
    if settings == [] then w else SetAll(Set(w, settings[0]), settings[1..])
  }

  class Instruction {
    var mValue: bv32

    constructor (value: bv32)
      ensures mValue == value
    {
      mValue := value;
    }

    method SetFirstOperand(value: bv8)
      requires value & 0xF0 == 0
      modifies this
      ensures mValue == Set(old(mValue), First(value))
    {
      FirstIsHeeded(mValue, value);
      hide Set;
      mValue := mValue | (value as bv32 << 16);
    }

    method SetSecondOperand(value: bv8)
      requires value & 0xF0 == 0
      modifies this
      ensures mValue == Set(old(mValue), Second(value))
    {
      if !UseImmediateValue(mValue) {
        mValue := mValue | (value as bv32 << 20);
      }
    }

    method SetThirdOperand(value: bv8)
      requires value & 0xF0 == 0
      modifies this
      ensures mValue == Set(old(mValue), Third(value))
    {
      if !UseImmediateValue(mValue) && !IsInplace(mValue) {
        mValue := mValue | (value as bv32 << 8);
      }
    }

    method SetImmediateValue(value: bv16)
      modifies this
      ensures mValue == Set(old(mValue), Immediate(value))
    {
      if UseImmediateValue(mValue) {
        mValue := mValue | (((value as bv32 << 8) & 0xFF00) | ((value as bv32 >> 8) & 0xFF));
      }
    }
  }

  lemma FirstIsHeeded(w: bv32, v: bv8)
    ensures Set(w, First(v)) == w | (v as bv32 << 16)
  {
    hide UseImmediateValue, IsInplace;
  }

  // ---------- one setter ----------

  function Or8(a: bv8, b: bv8): bv8 { a | b }

  function Or16(a: bv16, b: bv16): bv16 { a | b }

  /** Merging two words merges their fields. */
  lemma FieldsMerge(a: bv32, b: bv32)
    ensures Opcode(a | b) == Or8(Opcode(a), Opcode(b))
    ensures FirstOperand(a | b) == Or8(FirstOperand(a), FirstOperand(b))
    ensures SecondOperand(a | b) == Or8(SecondOperand(a), SecondOperand(b))
    ensures ThirdOperand(a | b) == Or8(ThirdOperand(a), ThirdOperand(b))
    ensures ImmediateValue(a | b) == Or16(ImmediateValue(a), ImmediateValue(b))
  {
  }

  /** Bits below the opcode do not change the class of an instruction. */
  lemma ClassStays(a: bv32, b: bv32)
    requires b <= 0x00FF_FFFF
    ensures UseImmediateValue(a | b) == UseImmediateValue(a) && IsInplace(a | b) == IsInplace(a) && Opcode(b) == 0
  {
  }

  lemma FirstBits(v: bv8)
    requires FourBits(v)
    ensures var b := BitsOf(First(v)); b <= 0x00FF_FFFF && FirstOperand(b) == v
    ensures var b := BitsOf(First(v)); SecondOperand(b) == 0 && ThirdOperand(b) == 0 && ImmediateValue(b) == 0
  {
  }

  lemma SecondBits(v: bv8)
    requires FourBits(v)
    ensures var b := BitsOf(Second(v)); b <= 0x00FF_FFFF && SecondOperand(b) == v
    ensures var b := BitsOf(Second(v)); FirstOperand(b) == 0 && ThirdOperand(b) == 0 && ImmediateValue(b) == 0
  {
  }

  lemma ThirdBits(v: bv8)
    requires FourBits(v)
    ensures var b := BitsOf(Third(v)); b <= 0x00FF_FFFF && ThirdOperand(b) == v
    ensures var b := BitsOf(Third(v)); FirstOperand(b) == 0 && SecondOperand(b) == 0
  {
  }

  lemma ImmediateBits(v: bv16)
    ensures var b := BitsOf(Immediate(v)); b <= 0x00FF_FFFF && ImmediateValue(b) == v
    ensures var b := BitsOf(Immediate(v)); FirstOperand(b) == 0 && SecondOperand(b) == 0
  {
  }

  lemma OrZero(a: bv8, b: bv16)
    ensures Or8(a, 0) == a && Or16(b, 0) == b && Or8(0, a) == a && Or16(0, b) == b
  {
  }

  lemma OrAssociates(a: bv8, b: bv8, c: bv8, x: bv16, y: bv16, z: bv16)
    ensures Or8(Or8(a, b), c) == Or8(a, Or8(b, c)) && Or16(Or16(x, y), z) == Or16(x, Or16(y, z))
  {
  }

  datatype Slot = FIRST | SECOND | THIRD

  /** What a setting adds to an operand. */
  function To(slot: Slot, s: Setting): bv8 {
    if (slot.FIRST? && s.First?) || (slot.SECOND? && s.Second?) || (slot.THIRD? && s.Third?) then s.v else 0
  }

  function ToImmediate(s: Setting): bv16 { if s.Immediate? then s.value else 0 }

  predicate SameClass(a: bv32, b: bv32) {
    UseImmediateValue(a) == UseImmediateValue(b) && IsInplace(a) == IsInplace(b) && Opcode(a) == Opcode(b)
  }

  /** The fields of an instruction that its class admits: an immediate value shares its bits with
      the third operand. */
  predicate Adds(w: bv32, w': bv32, first: bv8, second: bv8, third: bv8, immediate: bv16) {
    && SameClass(w, w')
    && FirstOperand(w') == Or8(FirstOperand(w), first)
    && (!UseImmediateValue(w) ==> SecondOperand(w') == Or8(SecondOperand(w), second))
    && (!UseImmediateValue(w) && !IsInplace(w) ==> ThirdOperand(w') == Or8(ThirdOperand(w), third))
    && (UseImmediateValue(w) ==> ImmediateValue(w') == Or16(ImmediateValue(w), immediate))
  }

  lemma NothingAdds(w: bv32)
    ensures Or8(FirstOperand(w), 0) == FirstOperand(w) && Or8(SecondOperand(w), 0) == SecondOperand(w)
    ensures Or8(ThirdOperand(w), 0) == ThirdOperand(w) && Or16(ImmediateValue(w), 0) == ImmediateValue(w)
  {
    OrZero(FirstOperand(w), ImmediateValue(w));
    OrZero(SecondOperand(w), 0);
    OrZero(ThirdOperand(w), 0);
  }

  /** Adding bits below the opcode adds their fields. */
  lemma BitsAdd(w: bv32, b: bv32)
    requires b <= 0x00FF_FFFF
    ensures Adds(w, Or32(w, b), FirstOperand(b), SecondOperand(b), ThirdOperand(b), ImmediateValue(b))
  {
    hide Or8, Or16, FirstOperand, SecondOperand, ThirdOperand, ImmediateValue, UseImmediateValue, IsInplace;
    FieldsMerge(w, b);
    ClassStays(w, b);
    OrZero(Opcode(w), 0);
  }

  lemma SettingAdds(w: bv32, s: Setting)
    requires s.Valid()
    ensures Adds(w, Set(w, s), To(FIRST, s), To(SECOND, s), To(THIRD, s), ToImmediate(s))
  {
    hide Adds, Heeds, BitsOf, Or32, FirstOperand, SecondOperand, ThirdOperand, ImmediateValue;
    if Heeds(w, s) {
      HeededAdds(w, s);
    } else {
      IgnoredAdds(w, s);
    }
  }

  lemma HeededAdds(w: bv32, s: Setting)
    requires s.Valid() && Heeds(w, s)
    ensures Adds(w, Or32(w, BitsOf(s)), To(FIRST, s), To(SECOND, s), To(THIRD, s), ToImmediate(s))
  {
    hide BitsOf, Adds, UseImmediateValue, IsInplace, FourBits, Or32;
    match s {
      case First(v) => FirstAdds(w, v);
      case Second(v) => SecondAdds(w, v);
      case Third(v) => ThirdAdds(w, v);
      case Immediate(v) => ImmediateAdds(w, v);
    }
  }

  lemma FirstAdds(w: bv32, v: bv8)
    requires FourBits(v)
    ensures Adds(w, Or32(w, BitsOf(First(v))), v, 0, 0, 0)
  {
    hide BitsOf, Adds, Or32, FirstOperand, SecondOperand, ThirdOperand, ImmediateValue, FourBits;
    FirstBits(v);
    BitsAdd(w, BitsOf(First(v)));
  }

  lemma SecondAdds(w: bv32, v: bv8)
    requires FourBits(v)
    ensures Adds(w, Or32(w, BitsOf(Second(v))), 0, v, 0, 0)
  {
    hide BitsOf, Adds, Or32, FirstOperand, SecondOperand, ThirdOperand, ImmediateValue, FourBits;
    SecondBits(v);
    BitsAdd(w, BitsOf(Second(v)));
  }

  lemma ThirdAdds(w: bv32, v: bv8)
    requires FourBits(v) && !UseImmediateValue(w)
    ensures Adds(w, Or32(w, BitsOf(Third(v))), 0, 0, v, 0)
  {
    hide BitsOf, Adds, Or32, FirstOperand, SecondOperand, ThirdOperand, ImmediateValue, FourBits, UseImmediateValue;
    var b := BitsOf(Third(v));
    ThirdBits(v);
    BitsAdd(w, b);
    AddsNoImmediate(w, Or32(w, b), 0, 0, v, ImmediateValue(b), 0);
  }

  lemma ImmediateAdds(w: bv32, v: bv16)
    requires UseImmediateValue(w)
    ensures Adds(w, Or32(w, BitsOf(Immediate(v))), 0, 0, 0, v)
  {
    hide BitsOf, Adds, Or32, FirstOperand, SecondOperand, ThirdOperand, ImmediateValue, UseImmediateValue;
    var b := BitsOf(Immediate(v));
    ImmediateBits(v);
    BitsAdd(w, b);
    AddsNoThird(w, Or32(w, b), 0, 0, ThirdOperand(b), 0, v);
  }

  /** The immediate value shares its bits with the third operand: only one of them counts. */
  lemma AddsNoImmediate(w: bv32, w': bv32, first: bv8, second: bv8, third: bv8, immediate: bv16, other: bv16)
    requires Adds(w, w', first, second, third, immediate) && !UseImmediateValue(w)
    ensures Adds(w, w', first, second, third, other)
  {
    hide SameClass, Or8, Or16, FirstOperand, SecondOperand, ThirdOperand, ImmediateValue, UseImmediateValue, IsInplace;
  }

  lemma AddsNoThird(w: bv32, w': bv32, first: bv8, second: bv8, third: bv8, other: bv8, immediate: bv16)
    requires Adds(w, w', first, second, third, immediate) && UseImmediateValue(w)
    ensures Adds(w, w', first, second, other, immediate)
  {
    hide SameClass, Or8, Or16, FirstOperand, SecondOperand, ThirdOperand, ImmediateValue, UseImmediateValue, IsInplace;
  }

  lemma IgnoredAdds(w: bv32, s: Setting)
    requires !Heeds(w, s)
    ensures Adds(w, w, To(FIRST, s), To(SECOND, s), To(THIRD, s), ToImmediate(s))
  {
    hide Or8, Or16, Opcode, FirstOperand, SecondOperand, ThirdOperand, ImmediateValue, UseImmediateValue, IsInplace;
    NothingAdds(w);
  }

  // ---------- many setters ----------

  /** All the values given for an operand, merged bit by bit. */
  function Operands(slot: Slot, settings: seq<Setting>): bv8 {
    if settings == [] then 0 else Or8(To(slot, settings[0]), Operands(slot, settings[1..]))
  }

  function Immediates(settings: seq<Setting>): bv16 {
    if settings == [] then 0 else Or16(ToImmediate(settings[0]), Immediates(settings[1..]))
  }

  /** However often and in whatever order the setters are called, no field disturbs another: each
      field that the instruction has ends up with what it held and all that was set, merged. */
  lemma {:induction false} SettersMerge(w: bv32, settings: seq<Setting>)
    requires forall i | 0 <= i < |settings| :: settings[i].Valid()
    ensures Adds(w, SetAll(w, settings), Operands(FIRST, settings), Operands(SECOND, settings),
                 Operands(THIRD, settings), Immediates(settings))
    decreases |settings|
  {
    hide Set, Or8, Or16, Opcode, FirstOperand, SecondOperand, ThirdOperand, ImmediateValue, UseImmediateValue, IsInplace;
    if settings == [] {
      OrZero(FirstOperand(w), ImmediateValue(w));
      OrZero(SecondOperand(w), 0);
      OrZero(ThirdOperand(w), 0);
    } else {
      var s, rest := settings[0], settings[1..];
      SettingAdds(w, s);
      SettersMerge(Set(w, s), rest);
      OrAssociates(FirstOperand(w), To(FIRST, s), Operands(FIRST, rest), ImmediateValue(w), ToImmediate(s), Immediates(rest));
      OrAssociates(SecondOperand(w), To(SECOND, s), Operands(SECOND, rest), 0, 0, 0);
      OrAssociates(ThirdOperand(w), To(THIRD, s), Operands(THIRD, rest), 0, 0, 0);
    }
  }

  // ---------- memory ----------

  /** The four bytes a word is stored as, the opcode first. */
  function Byte0(w: bv32): bv8 { (w >> 24) as bv8 }

  function Byte1(w: bv32): bv8 { ((w >> 16) & 0xFF) as bv8 }

  function Byte2(w: bv32): bv8 { ((w >> 8) & 0xFF) as bv8 }

  function Byte3(w: bv32): bv8 { (w & 0xFF) as bv8 }

  /** The word that a fetch puts together: each byte is shifted in from the right. */
  function Fetched(b0: bv8, b1: bv8, b2: bv8, b3: bv8): bv32 {
    ((((((b0 as bv32 << 8) | b1 as bv32) << 8) | b2 as bv32) << 8) | b3 as bv32)
  }

  /** Fetching inverts storing. */
  lemma FetchInvertsStore(w: bv32)
    ensures Fetched(Byte0(w), Byte1(w), Byte2(w), Byte3(w)) == w
  {
  }

  /** Storing inverts fetching. */
  lemma StoreInvertsFetch(b0: bv8, b1: bv8, b2: bv8, b3: bv8)
    ensures var w := Fetched(b0, b1, b2, b3);
            Byte0(w) == b0 && Byte1(w) == b1 && Byte2(w) == b2 && Byte3(w) == b3
  {
  }

  /** A machine that is about to fetch the word. */
  predicate AboutToFetch(s: M.State, w: bv32) {
    && E.ByteAt(s, 0) == Byte0(w) as int && E.ByteAt(s, 1) == Byte1(w) as int
    && E.ByteAt(s, 2) == Byte2(w) as int && E.ByteAt(s, 3) == Byte3(w) as int
  }

  lemma Halves(b: bv8)
    ensures (b >> 4) as int == b as int / 16 && (b & 0xF) as int == b as int % 16
  {
    assert b as int == 16 * ((b >> 4) as int) + (b & 0xF) as int && (b & 0xF) as int < 16;
  }

  lemma WordHalves(v: bv16)
    ensures v as int == 256 * ((v >> 8) as int) + (v & 0xFF) as int
  {
  }

  lemma TwoBytes(low: bv8, high: bv8)
    ensures ((high as bv16 << 8) | low as bv16) as int == 256 * (high as int) + low as int
  {
    var v := (high as bv16 << 8) | low as bv16;
    assert v >> 8 == high as bv16 && v & 0xFF == low as bv16;
    WordHalves(v);
    assert (high as bv16) as int == high as int && (low as bv16) as int == low as int;
  }

  lemma FieldsOfBytes(w: bv32)
    ensures Opcode(w) == Byte0(w) && FirstOperand(w) == Byte1(w) & 0xF && SecondOperand(w) == Byte1(w) >> 4
    ensures ThirdOperand(w) == Byte2(w) & 0xF && ImmediateValue(w) == (Byte3(w) as bv16 << 8) | Byte2(w) as bv16
  {
  }

  /** What the machine decodes from the four bytes of a word is what the getters say. */
  lemma DecodeAgrees(s: M.State, w: bv32)
    requires AboutToFetch(s, w)
    ensures var i := E.Decode(s);
            && i.opcode == Opcode(w) as int && i.first == FirstOperand(w) as int
            && i.second == SecondOperand(w) as int && i.third == ThirdOperand(w) as int
            && i.imm == ImmediateValue(w) as int
  {
    hide Byte0, Byte1, Byte2, Byte3, Opcode, FirstOperand, SecondOperand, ThirdOperand, ImmediateValue;
    FieldsOfBytes(w);
    Halves(Byte1(w));
    Halves(Byte2(w));
    TwoBytes(Byte2(w), Byte3(w));
  }

  /** From a word with an opcode only: after any calls of the setters, storing the word and
      fetching it gives the instruction with that opcode whose fields, as far as the opcode
      admits them, are what was set. */
  lemma SetStoredFetched(w: bv32, settings: seq<Setting>, s: M.State)
    requires w & 0x00FF_FFFF == 0 && forall i | 0 <= i < |settings| :: settings[i].Valid()
    requires AboutToFetch(s, SetAll(w, settings))
    ensures var i := E.Decode(s);
            && i.opcode == Opcode(w) as int && i.first == Operands(FIRST, settings) as int
            && (!UseImmediateValue(w) ==> i.second == Operands(SECOND, settings) as int)
            && (!UseImmediateValue(w) && !IsInplace(w) ==> i.third == Operands(THIRD, settings) as int)
            && (UseImmediateValue(w) ==> i.imm == Immediates(settings) as int)
  {
    EmptyFields(w);
    hide SetAll, Opcode, FirstOperand, SecondOperand, ThirdOperand, ImmediateValue, UseImmediateValue, IsInplace;
    hide Or8, Or16, AboutToFetch, E.Decode;
    SettersMerge(w, settings);
    DecodeAgrees(s, SetAll(w, settings));
    OrZero(Operands(FIRST, settings), Immediates(settings));
    OrZero(Operands(SECOND, settings), 0);
    OrZero(Operands(THIRD, settings), 0);
  }

  lemma EmptyFields(w: bv32)
    requires w & 0x00FF_FFFF == 0
    ensures FirstOperand(w) == 0 && SecondOperand(w) == 0 && ThirdOperand(w) == 0 && ImmediateValue(w) == 0
  {
  }

  /** A field that is set once holds exactly the value given, whatever is set around it. */
  lemma {:induction false} SetOnce(slot: Slot, settings: seq<Setting>, k: nat)
    requires k < |settings| && forall j | 0 <= j < |settings| && j != k :: To(slot, settings[j]) == 0
    ensures Operands(slot, settings) == To(slot, settings[k])
    decreases |settings|
  {
    hide To, Or8;
    OrZero(To(slot, settings[k]), 0);
    if k == 0 {
      NeverSet(slot, settings[1..]);
    } else {
      SetOnce(slot, settings[1..], k - 1);
    }
  }

  lemma {:induction false} NeverSet(slot: Slot, settings: seq<Setting>)
    requires forall j | 0 <= j < |settings| :: To(slot, settings[j]) == 0
    ensures Operands(slot, settings) == 0
    decreases |settings|
  {
    hide To, Or8;
    OrZero(0, 0);
    if settings != [] {
      NeverSet(slot, settings[1..]);
    }
  }

  lemma {:induction false} ImmediateSetOnce(settings: seq<Setting>, k: nat)
    requires k < |settings| && forall j | 0 <= j < |settings| :: settings[j].Immediate? <==> j == k
    ensures Immediates(settings) == settings[k].value
    decreases |settings|
  {
    hide Or16;
    OrZero(0, settings[k].value);
    if k == 0 {
      ImmediateNeverSet(settings[1..]);
    } else {
      ImmediateSetOnce(settings[1..], k - 1);
    }
  }

  lemma {:induction false} ImmediateNeverSet(settings: seq<Setting>)
    requires forall j | 0 <= j < |settings| :: !settings[j].Immediate?
    ensures Immediates(settings) == 0
    decreases |settings|
  {
    hide Or16;
    OrZero(0, 0);
    if settings != [] {
      ImmediateNeverSet(settings[1..]);
    }
  }

  // ---------- which setters work for which opcodes ----------

  lemma LowBits(b: bv8)
    ensures (b & 0xF == 0 <==> b as int % 16 == 0) && (b & 1 != 0 <==> b as int % 2 == 1)
  {
    Halves(b);
    assert (b & 1) as int == b as int % 2 by {
      assert b as int == 2 * ((b >> 1) as int) + (b & 1) as int && (b & 1) as int < 2;
    }
  }

  lemma ClassBits(w: bv32)
    ensures UseImmediateValue(w) <==> Opcode(w) & 0xF == 0
    ensures IsInplace(w) <==> Opcode(w) >= 0x50 && Opcode(w) & 1 != 0
  {
  }

  /** The opcode as a number. */
  function Number(w: bv32): int { Opcode(w) as int }

  lemma NumberIsAtLeast(b: bv8)
    ensures b >= 0x50 <==> b as int >= 0x50
  {
  }

  /** The first operand can always be set; an immediate value exactly when the opcode ends in the
      digit 0, the second operand exactly when it does not, and the third when besides the opcode is
      even or below 0x50. */
  lemma HeedsByOpcode(w: bv32, s: Setting)
    ensures Heeds(w, s) <==>
              match s
              case First(_) => true
              case Second(_) => Number(w) % 16 != 0
              case Third(_) => Number(w) % 16 != 0 && (Number(w) < 0x50 || Number(w) % 2 == 0)
              case Immediate(_) => Number(w) % 16 == 0
  {
    ClassBits(w);
    LowBits(Opcode(w));
    NumberIsAtLeast(Opcode(w));
    hide UseImmediateValue, IsInplace, Opcode;
  }

  /** Setting a register and an immediate value, storing the word and fetching it: the machine decodes
      the value exactly as given if the opcode ends in the digit 0, and 0 otherwise. */
  lemma ImmediateIsDecoded(w: bv32, register: bv8, value: bv16, s: M.State)
    requires w & 0x00FF_FFFF == 0 && FourBits(register)
    requires AboutToFetch(s, Set(Set(w, First(register)), Immediate(value)))
    ensures var i := E.Decode(s);
            && i.opcode == Number(w) && i.first == register as int
            && i.imm == if Number(w) % 16 == 0 then value as int else 0
  {
    var settings := [First(register), Immediate(value)];
    AllOfTwo(w, First(register), Immediate(value));
    HeedsByOpcode(w, Immediate(value));
    ClassStays(w, BitsOf(First(register)));
    if Number(w) % 16 == 0 {
      TwoAreSet(register, value);
      hide SetAll, Operands, Immediates, Opcode, FirstOperand, AboutToFetch, E.Decode, UseImmediateValue, IsInplace;
      SetStoredFetched(w, settings, s);
      UsesImmediate(w);
    } else {
      UsesImmediate(w);
      NothingElseSet(w, register, value);
      hide SetAll, Operands, Immediates, Opcode, FirstOperand, AboutToFetch, E.Decode, UseImmediateValue, IsInplace, Set;
      DecodeAgrees(s, Set(Set(w, First(register)), Immediate(value)));
    }
  }

  lemma UsesImmediate(w: bv32)
    ensures UseImmediateValue(w) <==> Number(w) % 16 == 0
  {
    HeedsByOpcode(w, Immediate(0));
    hide Number;
  }

  lemma {:induction false} AllOfTwo(w: bv32, a: Setting, b: Setting)
    ensures SetAll(w, [a, b]) == Set(Set(w, a), b)
  {
    hide Set;
    assert [a, b][1..] == [b] && [b][1..] == [];
    assert SetAll(Set(w, a), [b]) == SetAll(Set(Set(w, a), b), []);
  }

  lemma TwoAreSet(register: bv8, value: bv16)
    ensures var settings := [First(register), Immediate(value)];
            Operands(FIRST, settings) == register && Immediates(settings) == value
  {
    var settings := [First(register), Immediate(value)];
    hide Operands, Immediates;
    SetOnce(FIRST, settings, 0);
    ImmediateSetOnce(settings, 1);
  }

  lemma NothingElseSet(w: bv32, register: bv8, value: bv16)
    requires w & 0x00FF_FFFF == 0 && FourBits(register) && !UseImmediateValue(w)
    ensures var w' := Set(Set(w, First(register)), Immediate(value));
            Opcode(w') == Opcode(w) && FirstOperand(w') == register && ImmediateValue(w') == 0
  {
    var b := BitsOf(First(register));
    FirstBits(register);
    FirstIsHeeded(w, register);
    ClassStays(w, b);
    assert Set(Set(w, First(register)), Immediate(value)) == Or32(w, b);
    EmptyFields(w);
    OnlyOpcode(w, b);
  }

  lemma OnlyOpcode(w: bv32, b: bv32)
    requires w & 0x00FF_FFFF == 0 && b <= 0x00FF_FFFF
    ensures Opcode(w | b) == Opcode(w) && FirstOperand(w | b) == FirstOperand(b) && ImmediateValue(w | b) == ImmediateValue(b)
  {
  }

  /** Setting three operands: an opcode that heeds them all decodes to exactly these. */
  lemma OperandsAreDecoded(w: bv32, first: bv8, second: bv8, third: bv8, s: M.State)
    requires w & 0x00FF_FFFF == 0 && FourBits(first) && FourBits(second) && FourBits(third)
    requires Number(w) % 16 != 0 && (Number(w) < 0x50 || Number(w) % 2 == 0)
    requires AboutToFetch(s, SetAll(w, [First(first), Second(second), Third(third)]))
    ensures var i := E.Decode(s);
            i.opcode == Number(w) && i.first == first as int && i.second == second as int && i.third == third as int
  {
    var settings := [First(first), Second(second), Third(third)];
    HeedsByOpcode(w, Second(0));
    HeedsByOpcode(w, Third(0));
    hide SetAll, Operands, Immediates, Opcode, AboutToFetch, E.Decode, UseImmediateValue, IsInplace;
    SetOnce(FIRST, settings, 0);
    SetOnce(SECOND, settings, 1);
    SetOnce(THIRD, settings, 2);
    SetStoredFetched(w, settings, s);
  }

  /** The instructions that work on an immediate value. */
  predicate HasMode(opcode: M.UInt8, mode: E.Mode) {
    match E.HandlerOf(opcode)
    case Binary(_, mode') => mode' == mode
    case Discard(_, mode') => mode' == mode
    case Unary(_, mode') => mode' == mode
    case _ => false
  }

  /** Of the arithmetic instructions with an immediate operand, all get the value that is set but
      CMPI and TSTI, which get 0; those on three registers get all three. */
  lemma ModesBySetters(opcode: M.UInt8)
    ensures HasMode(opcode, E.Immediate) ==> (opcode % 16 == 0 <==> opcode != 0x63 && opcode != 0x73)
    ensures HasMode(opcode, E.Basic) ==> opcode % 16 != 0 && opcode % 2 == 0
    ensures HasMode(opcode, E.Inplace) ==> opcode >= 0x50 && opcode % 2 == 1
  {
  }

  /** For an arithmetic instruction with an immediate operand: setting, storing and fetching gives
      exactly the value set, unless it is CMPI or TSTI. */
  lemma ImmediateModeDecodes(w: bv32, register: bv8, value: bv16, s: M.State)
    requires w & 0x00FF_FFFF == 0 && FourBits(register) && HasMode(Number(w), E.Immediate)
    requires AboutToFetch(s, Set(Set(w, First(register)), Immediate(value)))
    ensures var i := E.Decode(s);
            && i.opcode == Number(w) && i.first == register as int
            && (i.imm == value as int <==> value == 0 || (Number(w) != 0x63 && Number(w) != 0x73))
  {
    ModesBySetters(Number(w));
    hide HasMode, AboutToFetch, E.Decode, Set, Number, FourBits;
    ImmediateIsDecoded(w, register, value, s);
  }

  /** `CMPI R0, 5` is fetched as `CMPI R0, 0`. */
  lemma CompareImmediateIsLost(s: M.State)
    requires AboutToFetch(s, Set(Set(0x6300_0000, First(0)), Immediate(5)))
    ensures E.Decode(s).opcode == 0x63 && E.Decode(s).imm == 0
  {
    assert Number(0x6300_0000) == 0x63;
    ImmediateIsDecoded(0x6300_0000, 0, 5, s);
  }

  /** For one on three registers: exactly the registers set. */
  lemma BasicModeDecodes(w: bv32, first: bv8, second: bv8, third: bv8, s: M.State)
    requires w & 0x00FF_FFFF == 0 && FourBits(first) && FourBits(second) && FourBits(third)
    requires HasMode(Number(w), E.Basic)
    requires AboutToFetch(s, SetAll(w, [First(first), Second(second), Third(third)]))
    ensures var i := E.Decode(s);
            i.opcode == Number(w) && i.first == first as int && i.second == second as int && i.third == third as int
  {
    ModesBySetters(Number(w));
    hide HasMode, AboutToFetch, E.Decode, SetAll, Number, FourBits;
    OperandsAreDecoded(w, first, second, third, s);
  }

  /** The instructions that read the immediate value. */
  predicate ReadsImmediate(opcode: M.UInt8) {
    var h := E.HandlerOf(opcode);
    || HasMode(opcode, E.Immediate)
    || h.RND? || h.DirectJMP? || h.JMC? || h.Jx? || h.JME? || h.DirectCALL? || h.Cx?
    || h.RegisterLDI? || h.StackLDI? || h.DirectLDM? || h.DirectSTM?
  }

  /** The setter of the immediate value works for some of these, and never for RND, JMC, Jx, JME, CALL,
      Cx, LDI SP, LDM, CMPI and TSTI. */
  lemma ImmediateIsSettable(w: bv32, value: bv16)
    requires ReadsImmediate(Number(w))
    ensures !Heeds(w, Immediate(value)) <==>
              Number(w) in {0x07, 0x11, 0x12, 0x13, 0x14, 0x17, 0x21, 0x22, 0x63, 0x73}
  {
    HeedsByOpcode(w, Immediate(value));
    ReadersByNumber(Number(w));
    hide Heeds, ReadsImmediate, Number;
  }

  lemma ReadersByNumber(opcode: M.UInt8)
    requires ReadsImmediate(opcode)
    ensures opcode % 16 != 0 <==> opcode in {0x07, 0x11, 0x12, 0x13, 0x14, 0x17, 0x21, 0x22, 0x63, 0x73}
  {
    OtherReaders(opcode);
    ModesBySetters(opcode);
    hide E.HandlerOf;
    if HasMode(opcode, E.Immediate) {
      ArithmeticFromFifty(opcode);
    }
  }

  lemma ArithmeticFromFifty(opcode: M.UInt8)
    ensures HasMode(opcode, E.Immediate) ==> opcode >= 0x50
  {
  }

  lemma OtherReaders(opcode: M.UInt8)
    ensures var h := E.HandlerOf(opcode);
            h.RND? || h.DirectJMP? || h.JMC? || h.Jx? || h.JME? || h.DirectCALL? || h.Cx?
            || h.RegisterLDI? || h.StackLDI? || h.DirectLDM? || h.DirectSTM? ==>
              opcode in {0x07, 0x10, 0x11, 0x12, 0x13, 0x14, 0x17, 0x20, 0x21, 0x22, 0x30}
  {
  }

  /** Of the shifts by a constant, which is their third operand, it can be set for SAR only. */
  lemma ShiftCountIsSettable(w: bv32, count: bv8)
    requires E.HandlerOf(Number(w)).Shift? && !E.HandlerOf(Number(w)).byRegister
    ensures Heeds(w, Third(count)) <==> Number(w) == 0xC2
  {
    HeedsByOpcode(w, Third(count));
    ShiftsByNumber(Number(w));
    hide Heeds, Number, E.HandlerOf;
  }

  lemma ShiftsByNumber(opcode: M.UInt8)
    ensures E.HandlerOf(opcode).Shift? && !E.HandlerOf(opcode).byRegister <==> opcode in {0xC0, 0xC1, 0xC2}
  {
  }
}
