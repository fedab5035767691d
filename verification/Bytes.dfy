/** Bytes as numbers, and the two one-byte checksum steps of the wire formats (Utils/Crc.cpp). */
module Bytes {
  import Arithmetic

  type Byte = x: int | 0 <= x < 256

  function Low(n: nat): Byte { n % 256 }

  function High(n: nat): Byte { (n / 256) % 256 }

  /** Two bytes, little end first. */
  function Word(lo: Byte, hi: Byte): nat { lo + 256 * hi }

  lemma WordOfHalves(n: nat)
    requires n < 65536
    ensures Word(Low(n), High(n)) == n
  {}

  lemma HalvesOfWord(lo: Byte, hi: Byte)
    ensures Low(Word(lo, hi)) == lo && High(Word(lo, hi)) == hi && Word(lo, hi) < 65536
  {}

  lemma LowOfByte(b: Byte)
    ensures Low(b) == b
  {}

  // ----- Exclusive or, bit by bit -----

  function Pow2(n: nat): (p: nat)
    ensures p >= 1
  {
    if n == 0 then 1 else 2 * Pow2(n - 1)
  }

  function XorBits(a: nat, b: nat, n: nat): (x: nat)
    ensures x < Pow2(n)
  {
    if n == 0 then 0 else (if a % 2 == b % 2 then 0 else 1) + 2 * XorBits(a / 2, b / 2, n - 1)
  }

  function Xor(a: Byte, b: Byte): Byte {
    assert Pow2(8) == 256;
    XorBits(a, b, 8)
  }

  lemma XorUnfolds(a: nat, b: nat, n: nat)
    requires n > 0
    ensures XorBits(a, b, n) == (if a % 2 == b % 2 then 0 else 1) + 2 * XorBits(a / 2, b / 2, n - 1)
  {}

  lemma {:induction false} XorBitsInjective(c: nat, c': nat, a: nat, a': nat, n: nat)
    requires c < Pow2(n) && c' < Pow2(n) && a < Pow2(n) && a' < Pow2(n)
    requires XorBits(c, a, n) == XorBits(c', a', n)
    ensures c == c' <==> a == a'
  {
    hide XorBits;
    if n > 0 {
      XorUnfolds(c, a, n);
      XorUnfolds(c', a', n);
      assert XorBits(c / 2, a / 2, n - 1) == XorBits(c' / 2, a' / 2, n - 1);
      XorBitsInjective(c / 2, c' / 2, a / 2, a' / 2, n - 1);
      hide Pow2;
      Halves(c, c');
      Halves(a, a');
    }
  }

  lemma Halves(a: nat, b: nat)
    ensures a == b <==> a / 2 == b / 2 && a % 2 == b % 2
  {}

  /** The XOR checksum step is a bijection in each argument. */
  lemma XorInjective(c: Byte, c': Byte, a: Byte, a': Byte)
    requires Xor(c, a) == Xor(c', a')
    ensures c == c' <==> a == a'
  {
    assert Pow2(8) == 256;
    XorBitsInjective(c, c', a, a', 8);
  }

  /** The `k`-th bit. */
  function Bit(x: nat, k: nat): nat { if k == 0 then x % 2 else Bit(x / 2, k - 1) }

  /** Each bit of the result is the sum of the two bits without carry. */
  lemma {:induction false} XorBitAt(a: nat, b: nat, n: nat, k: nat)
    requires k < n
    ensures Bit(XorBits(a, b, n), k) == (Bit(a, k) + Bit(b, k)) % 2
  {
    hide XorBits;
    XorHalves(a, b, n);
    if k > 0 { XorBitAt(a / 2, b / 2, n - 1, k - 1); }
  }

  lemma XorHalves(a: nat, b: nat, n: nat)
    requires n > 0
    ensures XorBits(a, b, n) % 2 == (a + b) % 2 && XorBits(a, b, n) / 2 == XorBits(a / 2, b / 2, n - 1)
  {
    XorUnfolds(a, b, n);
    hide XorBits;
    SumParity(a, b);
    OddPart(XorBits(a, b, n), if a % 2 == b % 2 then 0 else 1, XorBits(a / 2, b / 2, n - 1));
  }

  lemma SumParity(a: nat, b: nat)
    ensures (a + b) % 2 == if a % 2 == b % 2 then 0 else 1
  {}

  lemma OddPart(x: nat, bit: nat, rest: nat)
    requires x == bit + 2 * rest && bit < 2
    ensures x % 2 == bit && x / 2 == rest
  {}

  /** Bytes with the same bits are the same. */
  lemma {:induction false} SameBits(x: nat, y: nat, n: nat)
    requires x < Pow2(n) && y < Pow2(n) && forall k :: 0 <= k < n ==> Bit(x, k) == Bit(y, k)
    ensures x == y
  {
    if n > 0 {
      assert Bit(x, 0) == Bit(y, 0);
      forall k | 0 <= k < n - 1 ensures Bit(x / 2, k) == Bit(y / 2, k) {
        assert Bit(x, k + 1) == Bit(y, k + 1);
      }
      SameBits(x / 2, y / 2, n - 1);
      hide Pow2, Bit;
      Halves(x, y);
    }
  }

  /** The byte with the sums of the bits is the exclusive or, and nothing else is. */
  lemma XorByBits(a: Byte, b: Byte, x: Byte)
    ensures x == Xor(a, b) <==> SumsOfBits(a, b, x)
  {
    hide XorBits, Bit;
    XorSums(a, b);
    assert Pow2(8) == 256;
    if SumsOfBits(a, b, x) { SameBits(x, Xor(a, b), 8); }
  }

  predicate SumsOfBits(a: nat, b: nat, x: nat) {
    forall k :: 0 <= k < 8 ==> Bit(x, k) == (Bit(a, k) + Bit(b, k)) % 2
  }

  lemma XorSums(a: Byte, b: Byte)
    ensures SumsOfBits(a, b, Xor(a, b))
  {
    hide XorBits, Bit;
    forall k | 0 <= k < 8 ensures Bit(Xor(a, b), k) == (Bit(a, k) + Bit(b, k)) % 2 { XorBitAt(a, b, 8, k); }
  }

  lemma {:induction false} XorBitsAssociative(a: nat, b: nat, c: nat, n: nat)
    ensures XorBits(XorBits(a, b, n), c, n) == XorBits(a, XorBits(b, c, n), n)
  {
    if n > 0 {
      var x, y := XorBits(a, b, n), XorBits(b, c, n);
      XorHalves(a, b, n);
      XorHalves(b, c, n);
      XorBitsAssociative(a / 2, b / 2, c / 2, n - 1);
      XorUnfolds(x, c, n);
      XorUnfolds(a, y, n);
      hide XorBits;
      Parities(a, b, c, x, y);
    }
  }

  lemma Parities(a: nat, b: nat, c: nat, x: nat, y: nat)
    requires x % 2 == (a + b) % 2 && y % 2 == (b + c) % 2
    ensures x % 2 == c % 2 <==> a % 2 == y % 2
  {}

  lemma {:induction false} XorBitsCommutative(a: nat, b: nat, n: nat)
    ensures XorBits(a, b, n) == XorBits(b, a, n)
  {
    if n > 0 { XorBitsCommutative(a / 2, b / 2, n - 1); }
  }

  lemma {:induction false} XorBitsWithZero(a: nat, n: nat)
    requires a < Pow2(n)
    ensures XorBits(a, 0, n) == a
  {
    if n > 0 { XorBitsWithZero(a / 2, n - 1); }
  }

  lemma XorIsGroup(a: Byte, b: Byte, c: Byte)
    ensures Xor(Xor(a, b), c) == Xor(a, Xor(b, c)) && Xor(a, b) == Xor(b, a) && Xor(a, 0) == a && Xor(0, a) == a
  {
    hide XorBits;
    XorBitsAssociative(a, b, c, 8);
    XorBitsCommutative(a, b, 8);
    XorBitsCommutative(0, a, 8);
    assert Pow2(8) == 256;
    XorBitsWithZero(a, 8);
  }

  /** Two pairs may be paired the other way. */
  lemma XorExchange(a: Byte, b: Byte, c: Byte, d: Byte)
    ensures Xor(Xor(a, b), Xor(c, d)) == Xor(Xor(a, c), Xor(b, d))
  {
    hide Xor;
    XorIsGroup(a, b, Xor(c, d));
    XorIsGroup(b, c, d);
    XorIsGroup(b, c, 0);
    XorIsGroup(c, b, d);
    XorIsGroup(a, c, Xor(b, d));
  }

  // ----- And, bit by bit -----

  function AndBits(a: nat, b: nat, n: nat): (x: nat)
    ensures x < Pow2(n)
  {
    if n == 0 then 0 else (if a % 2 == 1 && b % 2 == 1 then 1 else 0) + 2 * AndBits(a / 2, b / 2, n - 1)
  }

  function And(a: Byte, b: Byte): Byte {
    assert Pow2(8) == 256;
    AndBits(a, b, 8)
  }

  lemma {:induction false} AndWithOnes(b: nat, n: nat)
    requires b < Pow2(n)
    ensures AndBits(Pow2(n) - 1, b, n) == b
  {
    if n > 0 {
      assert (Pow2(n) - 1) / 2 == Pow2(n - 1) - 1;
      AndWithOnes(b / 2, n - 1);
    }
  }

  lemma AndWithErased(b: Byte)
    ensures And(255, b) == b
  {
    assert Pow2(8) == 256;
    AndWithOnes(b, 8);
  }

  /** Each bit of the result is the product of the two bits. */
  lemma {:induction false} AndBitAt(a: nat, b: nat, n: nat, k: nat)
    requires k < n
    ensures Bit(AndBits(a, b, n), k) == Bit(a, k) * Bit(b, k)
  {
    hide AndBits;
    AndHalves(a, b, n);
    if k > 0 { AndBitAt(a / 2, b / 2, n - 1, k - 1); }
  }

  lemma AndHalves(a: nat, b: nat, n: nat)
    requires n > 0
    ensures AndBits(a, b, n) % 2 == (a % 2) * (b % 2) && AndBits(a, b, n) / 2 == AndBits(a / 2, b / 2, n - 1)
  {}

  /** The byte with the products of the bits is the conjunction, and nothing else is. */
  lemma AndByBits(a: Byte, b: Byte, x: Byte)
    ensures x == And(a, b) <==> ProductsOfBits(a, b, x)
  {
    hide AndBits, Bit;
    AndProducts(a, b);
    assert Pow2(8) == 256;
    if ProductsOfBits(a, b, x) { SameBits(x, And(a, b), 8); }
  }

  predicate ProductsOfBits(a: nat, b: nat, x: nat) {
    forall k :: 0 <= k < 8 ==> Bit(x, k) == Bit(a, k) * Bit(b, k)
  }

  lemma AndProducts(a: Byte, b: Byte)
    ensures ProductsOfBits(a, b, And(a, b))
  {
    hide AndBits, Bit;
    forall k | 0 <= k < 8 ensures Bit(And(a, b), k) == Bit(a, k) * Bit(b, k) { AndBitAt(a, b, 8, k); }
  }

  // ----- CRC-8 -----

  /** One bit of the CRC-8 with polynomial 0xD5. */
  function CrcShift(c: Byte): Byte {
    if c >= 0x80 then Xor((2 * c) % 256, 0xD5) else 2 * c
  }

  function CrcShifts(c: Byte, n: nat): Byte {
    if n == 0 then c else CrcShift(CrcShifts(c, n - 1))
  }

  /** The CRC-8 of clause 5.1.4 of ETSI EN 302 307, advanced by one byte. */
  function Crc(c: Byte, a: Byte): Byte {
    CrcShifts(Xor(c, a), 8)
  }

  /** The source's eight-round loop. */
  method Crc8DvbS2(crc: Byte, a: Byte) returns (r: Byte)
    ensures r == Crc(crc, a)
  {
    hide Xor;
    r := Xor(crc, a);
    for i := 0 to 8
      invariant r == CrcShifts(Xor(crc, a), i)
    {
      if r >= 0x80 {
        r := Xor((2 * r) % 256, 0xD5);
      } else {
        r := 2 * r;
      }
    }
  }

  lemma XorParity(a: Byte, b: Byte)
    ensures Xor(a, b) % 2 == (if a % 2 == b % 2 then 0 else 1)
  {}

  lemma CrcShiftInjective(a: Byte, b: Byte)
    requires CrcShift(a) == CrcShift(b)
    ensures a == b
  {
    hide Xor;
    var x, y := (2 * a) % 256, (2 * b) % 256;
    XorParity(x, 0xD5);
    XorParity(y, 0xD5);
    if a >= 0x80 && b >= 0x80 {
      XorInjective(x, y, 0xD5, 0xD5);
    }
  }

  lemma {:induction false} CrcShiftsInjective(a: Byte, b: Byte, n: nat)
    requires CrcShifts(a, n) == CrcShifts(b, n)
    ensures a == b
  {
    hide CrcShift;
    if n > 0 {
      CrcShiftInjective(CrcShifts(a, n - 1), CrcShifts(b, n - 1));
      CrcShiftsInjective(a, b, n - 1);
    }
  }

  /** The CRC step is a bijection in each argument. */
  lemma CrcInjective(c: Byte, c': Byte, a: Byte, a': Byte)
    requires Crc(c, a) == Crc(c', a')
    ensures c == c' <==> a == a'
  {
    hide Xor, CrcShift;
    CrcShiftsInjective(Xor(c, a), Xor(c', a'), 8);
    XorInjective(c, c', a, a');
  }

  // ----- What the CRC is -----

  lemma ShiftIsXor(c: Byte)
    ensures CrcShift(c) == Xor((2 * c) % 256, if c >= 0x80 then 0xD5 else 0)
  {
    hide Xor;
    XorIsGroup((2 * c) % 256, 0, 0);
  }

  /** The lower bits of the result come from the lower bits. */
  lemma {:induction false} XorBitsBelow(a: nat, b: nat, n: nat)
    ensures XorBits(a, b, n + 1) % Pow2(n) == XorBits(a, b, n)
    ensures XorBits(a % Pow2(n), b % Pow2(n), n) == XorBits(a, b, n)
  {
    if n > 0 {
      hide XorBits, Pow2;
      var m := Pow2(n - 1);
      XorBitsBelow(a / 2, b / 2, n - 1);
      XorUnfolds(a, b, n + 1);
      XorUnfolds(a, b, n);
      XorUnfolds(a % (2 * m), b % (2 * m), n);
      PowerDoubles(n);
      HalfOfRest(a, m);
      HalfOfRest(b, m);
      var x := XorBits(a, b, n + 1);
      HalfOfRest(x, m);
      OddPart(x, if a % 2 == b % 2 then 0 else 1, XorBits(a / 2, b / 2, n));
    } else {
      assert XorBits(a, b, 0) == 0 && Pow2(0) == 1;
    }
  }

  lemma PowerDoubles(n: nat)
    requires n > 0
    ensures Pow2(n) == 2 * Pow2(n - 1)
  {}

  lemma HalfOfRest(a: nat, m: nat)
    requires m >= 1
    ensures (a % (2 * m)) / 2 == (a / 2) % m && (a % (2 * m)) % 2 == a % 2
    ensures a % (2 * m) == a % 2 + 2 * ((a / 2) % m)
  {
    var q, r := a / 2 / m, a / 2 % m;
    assert a / 2 == m * q + r;
    assert a == (2 * m) * q + (a % 2 + 2 * r);
    assert a == q * (2 * m) + (a % 2 + 2 * r);
    Arithmetic.QuotientIs(a, q, a % 2 + 2 * r, 2 * m);
  }

  lemma {:induction false} XorBitsTop(a: nat, b: nat, n: nat)
    requires a < 2 * Pow2(n) && b < 2 * Pow2(n)
    ensures XorBits(a, b, n + 1) >= Pow2(n) <==> (a >= Pow2(n)) != (b >= Pow2(n))
  {
    if n > 0 { XorBitsTop(a / 2, b / 2, n - 1); }
  }

  lemma XorDoubles(a: Byte, b: Byte)
    ensures Xor((2 * a) % 256, (2 * b) % 256) == (2 * Xor(a, b)) % 256
    ensures Xor(a, b) >= 0x80 <==> (a >= 0x80) != (b >= 0x80)
  {
    hide XorBits;
    assert Pow2(7) == 128 && Pow2(8) == 256;
    XorBitsTop(a, b, 7);
    XorBitsBelow(a, b, 7);
    XorBitsBelow(2 * a, 2 * b, 8);
    XorUnfolds(2 * a, 2 * b, 8);
    hide Pow2;
    assert 2 * a / 2 == a && 2 * b / 2 == b && 2 * a % 2 == 0 && 2 * b % 2 == 0;
    assert XorBits(2 * a, 2 * b, 8) == 2 * XorBits(a, b, 7);
    TwiceRest(Xor(a, b));
  }

  lemma TwiceRest(x: nat)
    ensures (2 * x) % 256 == 2 * (x % 128)
  {}

  lemma ShiftIsLinear(a: Byte, b: Byte)
    ensures CrcShift(Xor(a, b)) == Xor(CrcShift(a), CrcShift(b))
  {
    hide Xor, CrcShift;
    ShiftIsXor(a);
    ShiftIsXor(b);
    ShiftIsXor(Xor(a, b));
    XorDoubles(a, b);
    var p: Byte, q: Byte := if a >= 0x80 then 0xD5 else 0, if b >= 0x80 then 0xD5 else 0;
    XorExchange((2 * a) % 256, p, (2 * b) % 256, q);
    XorIsGroup(0xD5, 0xD5, 0);
    XorWithItself(0xD5);
    XorWithItself(0);
  }

  lemma {:induction false} XorBitsWithItself(a: nat, n: nat)
    ensures XorBits(a, a, n) == 0
  {
    if n > 0 { XorBitsWithItself(a / 2, n - 1); }
  }

  lemma XorWithItself(a: Byte)
    ensures Xor(a, a) == 0
  {
    XorBitsWithItself(a, 8);
  }

  lemma {:induction false} ShiftsAreLinear(a: Byte, b: Byte, n: nat)
    ensures CrcShifts(Xor(a, b), n) == Xor(CrcShifts(a, n), CrcShifts(b, n))
  {
    hide Xor, CrcShift;
    if n > 0 {
      ShiftsAreLinear(a, b, n - 1);
      ShiftIsLinear(CrcShifts(a, n - 1), CrcShifts(b, n - 1));
    }
  }

  /** The CRC step is linear, so that its values at the eight single bits are all its values. */
  lemma CrcIsLinear(c: Byte, d: Byte, a: Byte, b: Byte)
    ensures Crc(Xor(c, d), Xor(a, b)) == Xor(Crc(c, a), Crc(d, b))
  {
    hide Xor, CrcShifts;
    XorExchange(c, d, a, b);
    ShiftsAreLinear(Xor(c, a), Xor(d, b), 8);
  }

  /** Those values: the powers x^8 to x^15 modulo x^8 + x^7 + x^6 + x^4 + x^2 + 1. */
  lemma CrcOfBits()
    ensures Crc(0, 1) == 0xD5 && Crc(0, 2) == 0x7F && Crc(0, 4) == 0xFE && Crc(0, 8) == 0x29
    ensures Crc(0, 16) == 0x52 && Crc(0, 32) == 0xA4 && Crc(0, 64) == 0x9D && Crc(0, 128) == 0xEF
  {
    hide Xor, CrcShifts;
    PowersOfX();
    XorIsGroup(1, 0, 0); XorIsGroup(2, 0, 0); XorIsGroup(4, 0, 0); XorIsGroup(8, 0, 0);
    XorIsGroup(16, 0, 0); XorIsGroup(32, 0, 0); XorIsGroup(64, 0, 0); XorIsGroup(128, 0, 0);
    ShiftedBits();
  }

  lemma {:induction false} ShiftsAdd(c: Byte, m: nat, n: nat)
    ensures CrcShifts(CrcShifts(c, m), n) == CrcShifts(c, m + n)
  {
    hide CrcShift;
    if n > 0 { ShiftsAdd(c, m, n - 1); }
  }

  lemma ShiftedBits()
    ensures CrcShifts(2, 8) == CrcShifts(1, 9) && CrcShifts(4, 8) == CrcShifts(1, 10)
    ensures CrcShifts(8, 8) == CrcShifts(1, 11) && CrcShifts(16, 8) == CrcShifts(1, 12) && CrcShifts(32, 8) == CrcShifts(1, 13)
    ensures CrcShifts(64, 8) == CrcShifts(1, 14) && CrcShifts(128, 8) == CrcShifts(1, 15)
  {
    ShiftOnce(1, 0); ShiftOnce(1, 1); ShiftOnce(1, 2); ShiftOnce(1, 3); ShiftOnce(1, 4); ShiftOnce(1, 5); ShiftOnce(1, 6);
    NoShift(1);
    hide CrcShifts;
    ShiftsAdd(1, 1, 8); ShiftsAdd(1, 2, 8); ShiftsAdd(1, 3, 8); ShiftsAdd(1, 4, 8);
    ShiftsAdd(1, 5, 8); ShiftsAdd(1, 6, 8); ShiftsAdd(1, 7, 8);
  }

  lemma {:induction false} NoShift(c: Byte)
    ensures CrcShifts(c, 0) == c
  {}

  lemma ShiftOnce(c: Byte, n: nat)
    ensures CrcShifts(c, n + 1) == CrcShift(CrcShifts(c, n))
  {}

  lemma PowersOfX()
    ensures CrcShifts(1, 8) == 0xD5 && CrcShifts(1, 9) == 0x7F && CrcShifts(1, 10) == 0xFE && CrcShifts(1, 11) == 0x29
    ensures CrcShifts(1, 12) == 0x52 && CrcShifts(1, 13) == 0xA4 && CrcShifts(1, 14) == 0x9D && CrcShifts(1, 15) == 0xEF
  {
    hide CrcShifts, Xor;
    NoShift(1);
    ShiftOnce(1, 0); ShiftOnce(1, 1); ShiftOnce(1, 2); ShiftOnce(1, 3); ShiftOnce(1, 4);
    ShiftOnce(1, 5); ShiftOnce(1, 6); ShiftOnce(1, 7); ShiftOnce(1, 8); ShiftOnce(1, 9);
    ShiftOnce(1, 10); ShiftOnce(1, 11); ShiftOnce(1, 12); ShiftOnce(1, 13); ShiftOnce(1, 14);
    FiveSums();
  }

  lemma {:induction false} XorOfNothing(a: nat, b: nat)
    ensures XorBits(a, b, 0) == 0
  {}

  lemma FiveSums()
    ensures Xor(0x00, 0xD5) == 0xD5 && Xor(0xAA, 0xD5) == 0x7F && Xor(0xFC, 0xD5) == 0x29
    ensures Xor(0x48, 0xD5) == 0x9D && Xor(0x3A, 0xD5) == 0xEF
  {
    hide XorBits;
    XorOfNothing(0, 0);
    XorUnfolds(0, 1, 1); XorUnfolds(1, 1, 1);
    XorUnfolds(0, 3, 2); XorUnfolds(2, 3, 2); XorUnfolds(3, 3, 2); XorUnfolds(1, 3, 2);
    XorUnfolds(0, 6, 3); XorUnfolds(5, 6, 3); XorUnfolds(7, 6, 3); XorUnfolds(2, 6, 3); XorUnfolds(1, 6, 3);
    XorUnfolds(0, 13, 4); XorUnfolds(10, 13, 4); XorUnfolds(15, 13, 4); XorUnfolds(4, 13, 4); XorUnfolds(3, 13, 4);
    XorUnfolds(0, 26, 5); XorUnfolds(21, 26, 5); XorUnfolds(31, 26, 5); XorUnfolds(9, 26, 5); XorUnfolds(7, 26, 5);
    XorUnfolds(0, 53, 6); XorUnfolds(42, 53, 6); XorUnfolds(63, 53, 6); XorUnfolds(18, 53, 6); XorUnfolds(14, 53, 6);
    XorUnfolds(0, 106, 7); XorUnfolds(85, 106, 7); XorUnfolds(126, 106, 7); XorUnfolds(36, 106, 7); XorUnfolds(29, 106, 7);
    XorUnfolds(0, 213, 8); XorUnfolds(170, 213, 8); XorUnfolds(252, 213, 8); XorUnfolds(72, 213, 8); XorUnfolds(58, 213, 8);
  }
}
