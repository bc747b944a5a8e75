/** The bits of a word, and what the logical operations do to each. */
module WordBits {
  import opened Machine
  import opened Execution

  function TwoTo(n: nat): (r: nat)
    ensures r > 0
  {
    if n == 0 then 1 else TwoTo(n - 1) + TwoTo(n - 1)
  }

  /** Bit `k` of a word, the lowest being bit 0. */
  predicate Bit(v: UInt16, k: Nibble) {
    (v / TwoTo(k)) % 2 == 1
  }

  lemma TwoToIs()
    ensures TwoTo(0) == 1 && TwoTo(1) == 2 && TwoTo(2) == 4 && TwoTo(3) == 8
    ensures TwoTo(4) == 0x10 && TwoTo(5) == 0x20 && TwoTo(6) == 0x40 && TwoTo(7) == 0x80
    ensures TwoTo(8) == 0x100 && TwoTo(9) == 0x200 && TwoTo(10) == 0x400 && TwoTo(11) == 0x800
    ensures TwoTo(12) == 0x1000 && TwoTo(13) == 0x2000 && TwoTo(14) == 0x4000 && TwoTo(15) == 0x8000
  {
    assert TwoTo(3) == 8;
    assert TwoTo(7) == 0x80;
    assert TwoTo(11) == 0x800;
  }

  lemma BitsAreMasked(v: UInt16)
    ensures Bit(v, 0) <==> Bits(v) & 1 != 0
    ensures Bit(v, 1) <==> Bits(v) & 2 != 0
    ensures Bit(v, 2) <==> Bits(v) & 4 != 0
    ensures Bit(v, 3) <==> Bits(v) & 8 != 0
    ensures Bit(v, 4) <==> Bits(v) & 0x10 != 0
    ensures Bit(v, 5) <==> Bits(v) & 0x20 != 0
    ensures Bit(v, 6) <==> Bits(v) & 0x40 != 0
    ensures Bit(v, 7) <==> Bits(v) & 0x80 != 0
    ensures Bit(v, 8) <==> Bits(v) & 0x100 != 0
    ensures Bit(v, 9) <==> Bits(v) & 0x200 != 0
    ensures Bit(v, 10) <==> Bits(v) & 0x400 != 0
    ensures Bit(v, 11) <==> Bits(v) & 0x800 != 0
    ensures Bit(v, 12) <==> Bits(v) & 0x1000 != 0
    ensures Bit(v, 13) <==> Bits(v) & 0x2000 != 0
    ensures Bit(v, 14) <==> Bits(v) & 0x4000 != 0
    ensures Bit(v, 15) <==> Bits(v) & 0x8000 != 0
  {
    hide TwoTo;
    TwoToIs();
  }

  lemma BackAndForth(b: bv16)
    ensures Bits(b as UInt16) == b
  {
  }

  predicate IsAnd(x: UInt16, y: UInt16, z: UInt16) {
    Bits(z) == Bits(x) & Bits(y)
  }

  lemma AndIs(x: UInt16, y: UInt16)
    ensures IsAnd(x, y, Alu(And, x, y))
  {
    hide Bits;
    BackAndForth(Bits(x) & Bits(y));
  }

  lemma AndDigits(x: UInt16, y: UInt16, z: UInt16)
    requires IsAnd(x, y, z)
    ensures Bit(z, 0) <==> Bit(x, 0) && Bit(y, 0)
    ensures Bit(z, 1) <==> Bit(x, 1) && Bit(y, 1)
    ensures Bit(z, 2) <==> Bit(x, 2) && Bit(y, 2)
    ensures Bit(z, 3) <==> Bit(x, 3) && Bit(y, 3)
    ensures Bit(z, 4) <==> Bit(x, 4) && Bit(y, 4)
    ensures Bit(z, 5) <==> Bit(x, 5) && Bit(y, 5)
    ensures Bit(z, 6) <==> Bit(x, 6) && Bit(y, 6)
    ensures Bit(z, 7) <==> Bit(x, 7) && Bit(y, 7)
    ensures Bit(z, 8) <==> Bit(x, 8) && Bit(y, 8)
    ensures Bit(z, 9) <==> Bit(x, 9) && Bit(y, 9)
    ensures Bit(z, 10) <==> Bit(x, 10) && Bit(y, 10)
    ensures Bit(z, 11) <==> Bit(x, 11) && Bit(y, 11)
    ensures Bit(z, 12) <==> Bit(x, 12) && Bit(y, 12)
    ensures Bit(z, 13) <==> Bit(x, 13) && Bit(y, 13)
    ensures Bit(z, 14) <==> Bit(x, 14) && Bit(y, 14)
    ensures Bit(z, 15) <==> Bit(x, 15) && Bit(y, 15)
  {
    hide Bits, Bit;
    BitsAreMasked(x);
    BitsAreMasked(y);
    BitsAreMasked(z);
  }

  lemma AndBits(x: UInt16, y: UInt16, k: Nibble)
    ensures Bit(Alu(And, x, y), k) <==> Bit(x, k) && Bit(y, k)
  {
    hide Bits, Bit, Alu, IsAnd;
    AndIs(x, y);
    AndDigits(x, y, Alu(And, x, y));
  }

  predicate IsOr(x: UInt16, y: UInt16, z: UInt16) {
    Bits(z) == Bits(x) | Bits(y)
  }

  lemma OrIs(x: UInt16, y: UInt16)
    ensures IsOr(x, y, Alu(Or, x, y))
  {
    hide Bits;
    BackAndForth(Bits(x) | Bits(y));
  }

  lemma OrDigits(x: UInt16, y: UInt16, z: UInt16)
    requires IsOr(x, y, z)
    ensures Bit(z, 0) <==> Bit(x, 0) || Bit(y, 0)
    ensures Bit(z, 1) <==> Bit(x, 1) || Bit(y, 1)
    ensures Bit(z, 2) <==> Bit(x, 2) || Bit(y, 2)
    ensures Bit(z, 3) <==> Bit(x, 3) || Bit(y, 3)
    ensures Bit(z, 4) <==> Bit(x, 4) || Bit(y, 4)
    ensures Bit(z, 5) <==> Bit(x, 5) || Bit(y, 5)
    ensures Bit(z, 6) <==> Bit(x, 6) || Bit(y, 6)
    ensures Bit(z, 7) <==> Bit(x, 7) || Bit(y, 7)
    ensures Bit(z, 8) <==> Bit(x, 8) || Bit(y, 8)
    ensures Bit(z, 9) <==> Bit(x, 9) || Bit(y, 9)
    ensures Bit(z, 10) <==> Bit(x, 10) || Bit(y, 10)
    ensures Bit(z, 11) <==> Bit(x, 11) || Bit(y, 11)
    ensures Bit(z, 12) <==> Bit(x, 12) || Bit(y, 12)
    ensures Bit(z, 13) <==> Bit(x, 13) || Bit(y, 13)
    ensures Bit(z, 14) <==> Bit(x, 14) || Bit(y, 14)
    ensures Bit(z, 15) <==> Bit(x, 15) || Bit(y, 15)
  {
    hide Bits, Bit;
    BitsAreMasked(x);
    BitsAreMasked(y);
    BitsAreMasked(z);
  }

  lemma OrBits(x: UInt16, y: UInt16, k: Nibble)
    ensures Bit(Alu(Or, x, y), k) <==> Bit(x, k) || Bit(y, k)
  {
    hide Bits, Bit, Alu, IsOr;
    OrIs(x, y);
    OrDigits(x, y, Alu(Or, x, y));
  }

  predicate IsXor(x: UInt16, y: UInt16, z: UInt16) {
    Bits(z) == Bits(x) ^ Bits(y)
  }

  lemma XorIs(x: UInt16, y: UInt16)
    ensures IsXor(x, y, Alu(Xor, x, y))
  {
    hide Bits;
    BackAndForth(Bits(x) ^ Bits(y));
  }

  lemma XorDigits(x: UInt16, y: UInt16, z: UInt16)
    requires IsXor(x, y, z)
    ensures Bit(z, 0) <==> Bit(x, 0) != Bit(y, 0)
    ensures Bit(z, 1) <==> Bit(x, 1) != Bit(y, 1)
    ensures Bit(z, 2) <==> Bit(x, 2) != Bit(y, 2)
    ensures Bit(z, 3) <==> Bit(x, 3) != Bit(y, 3)
    ensures Bit(z, 4) <==> Bit(x, 4) != Bit(y, 4)
    ensures Bit(z, 5) <==> Bit(x, 5) != Bit(y, 5)
    ensures Bit(z, 6) <==> Bit(x, 6) != Bit(y, 6)
    ensures Bit(z, 7) <==> Bit(x, 7) != Bit(y, 7)
    ensures Bit(z, 8) <==> Bit(x, 8) != Bit(y, 8)
    ensures Bit(z, 9) <==> Bit(x, 9) != Bit(y, 9)
    ensures Bit(z, 10) <==> Bit(x, 10) != Bit(y, 10)
    ensures Bit(z, 11) <==> Bit(x, 11) != Bit(y, 11)
    ensures Bit(z, 12) <==> Bit(x, 12) != Bit(y, 12)
    ensures Bit(z, 13) <==> Bit(x, 13) != Bit(y, 13)
    ensures Bit(z, 14) <==> Bit(x, 14) != Bit(y, 14)
    ensures Bit(z, 15) <==> Bit(x, 15) != Bit(y, 15)
  {
    hide Bits, Bit;
    BitsAreMasked(x);
    BitsAreMasked(y);
    BitsAreMasked(z);
  }

  lemma XorBits(x: UInt16, y: UInt16, k: Nibble)
    ensures Bit(Alu(Xor, x, y), k) <==> Bit(x, k) != Bit(y, k)
  {
    hide Bits, Bit, Alu, IsXor;
    XorIs(x, y);
    XorDigits(x, y, Alu(Xor, x, y));
  }

  lemma {:induction false} PowersMultiply(k: nat, n: nat)
    ensures TwoTo(k) * TwoTo(n) == TwoTo(k + n)
    decreases n
  {
    if n > 0 {
      PowersMultiply(k, n - 1);
      assert TwoTo(k + n) == TwoTo(k + n - 1) + TwoTo(k + n - 1);
      assert TwoTo(k) * (TwoTo(n - 1) + TwoTo(n - 1)) == TwoTo(k) * TwoTo(n - 1) + TwoTo(k) * TwoTo(n - 1);
    }
  }

  lemma QuotientIs(a: int, p: int, q: int, r: int)
    requires a == p * q + r && 0 <= r < p
    ensures a / p == q
  {
    var d := a / p - q;
    assert p * d == p * (a / p) - p * q;
    assert -p < p * d < p;
  }

  lemma ComplementQuotient(v: UInt16, p: nat, n: nat)
    requires p * n == 0x8000
    ensures p > 0 && (0xFFFF - v) / p == 2 * n - 1 - v / p
  {
    var q, r := v / p, v % p;
    assert p * (2 * n - 1 - q) == 2 * (p * n) - p - p * q;
    QuotientIs(0xFFFF - v, p, 2 * n - 1 - q, p - 1 - r);
  }

  lemma ParityFlips(a: int, n: int)
    ensures (2 * n - 1 - a) % 2 == 1 <==> a % 2 != 1
  {
  }

  /** The complement. */
  lemma NotBits(v: UInt16, k: Nibble)
    ensures Bit(UnaryAlu(Not, v), k) <==> !Bit(v, k)
  {
    hide TwoTo;
    var p, n := TwoTo(k), TwoTo(15 - k);
    assert p * n == 0x8000 by {
      TwoToIs();
      PowersMultiply(k, 15 - k);
    }
    ComplementQuotient(v, p, n);
    ParityFlips(v / p, n);
  }

  lemma HalfOfQuotient(x: nat, p: nat)
    requires p > 0
    ensures (x / p) / 2 == x / (p + p)
  {
    var q, r := x / p, x % p;
    var half, bit := q / 2, q % 2;
    assert p * q == (p + p) * half + p * bit by {
      assert q == 2 * half + bit;
    }
    QuotientIs(x, p + p, half, p * bit + r);
  }

  /** Equal but for their last bits, and these equal, too. */
  lemma LastBitDecides(a: nat, b: nat)
    requires a / 2 == b / 2 && (a % 2 == 1 <==> b % 2 == 1)
    ensures a == b
  {
  }

  lemma {:induction false} HighBitsDetermine(x: UInt16, y: UInt16, k: nat)
    requires k <= 16 && forall j: Nibble :: Bit(x, j) <==> Bit(y, j)
    ensures x / TwoTo(k) == y / TwoTo(k)
    decreases 16 - k
  {
    hide TwoTo;
    if k < 16 {
      HighBitsDetermine(x, y, k + 1);
      var p := TwoTo(k);
      Doubles(k);
      HalfOfQuotient(x, p);
      HalfOfQuotient(y, p);
      assert Bit(x, k) <==> Bit(y, k);
      QuotientIsNat(x, p);
      QuotientIsNat(y, p);
      LastBitDecides(x / p, y / p);
    } else {
      assert TwoTo(16) == 0x1_0000 by {
        TwoToIs();
        Doubles(15);
      }
    }
  }

  lemma QuotientIsNat(x: nat, p: nat)
    requires p > 0
    ensures x / p >= 0
  {
  }

  lemma Doubles(k: nat)
    ensures TwoTo(k + 1) == TwoTo(k) + TwoTo(k)
  {
  }

  /** A word is determined by its bits. */
  lemma BitsDetermine(x: UInt16, y: UInt16)
    requires forall k: Nibble :: Bit(x, k) <==> Bit(y, k)
    ensures x == y
  {
    HighBitsDetermine(x, y, 0);
  }
}
