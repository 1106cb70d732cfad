/**
 * Java's `long` and `byte` as bit-vectors, and the integers they stand for.
 * A `long` is a `bv64`: its `+` wraps around modulo 2^64 exactly as Java's
 * does. Its integer value is read off its eight bytes, most significant
 * first, so that every fact about it reduces to facts about single bytes.
 */
module JavaLongs {
  type byte = bv8

  const TWO63: int := 0x8000_0000_0000_0000
  const TWO64: int := 0x1_0000_0000_0000_0000

  /** Java's `(byte)` narrowing of a long: keep the low 8 bits. */
  function Byte(x: bv64): byte
  {
    (x & 0xff) as byte
  }

  /** Java's `(long) (b & 0xff)`: the byte read as an unsigned value. */
  function Long(b: byte): bv64
  {
    b as bv64
  }

  /** A byte read as an unsigned number, 0 to 255. */
  function ByteValue(b: byte): int
  {
    b as int
  }

  /** Eight base-256 digits, most significant first, as one number. */
  function Horner(d7: int, d6: int, d5: int, d4: int, d3: int, d2: int, d1: int, d0: int): int
  {
    ((((((d7 * 256 + d6) * 256 + d5) * 256 + d4) * 256 + d3) * 256 + d2) * 256 + d1) * 256 + d0
  }

  /** The low n bytes of a long read as an unsigned number, most significant first. */
  function LowBytes(x: bv64, n: nat): int
  {
    if n == 0 then 0 else LowBytes(x >> 8, n - 1) * 256 + ByteValue(Byte(x))
  }

  /** The long read as an unsigned 64-bit number: all eight of its bytes. */
  function Unsigned(x: bv64): int
  {
    LowBytes(x, 8)
  }

  /** The long's value in Java: two's complement, the top bit weighing -2^63. */
  function Signed(x: bv64): int
  {
    if x & 0x8000_0000_0000_0000 == 0 then Unsigned(x) else Unsigned(x) - TWO64
  }

  // ---------------------------------------------------------------------------
  // Single bytes
  // ---------------------------------------------------------------------------

  lemma ByteRange(b: byte)
    ensures 0 <= ByteValue(b) < 256
  {
  }

  lemma ByteInj(a: byte, b: byte)
    requires ByteValue(a) == ByteValue(b)
    ensures a == b
  {
  }

  lemma ByteInc(b: byte)
    requires b != 0xff
    ensures ByteValue(b + 1) == ByteValue(b) + 1
  {
  }

  /** Flipping the top bit of a byte adds or removes 128. */
  lemma TopBitFlip(b: byte)
    ensures ByteValue(b ^ 0x80) == if b & 0x80 == 0 then ByteValue(b) + 128 else ByteValue(b) - 128
  {
  }

  /** A long is determined by its eight bytes. */
  lemma BytesDetermine(x: bv64, y: bv64)
    requires Byte(x >> 56) == Byte(y >> 56) && Byte(x >> 48) == Byte(y >> 48)
    requires Byte(x >> 40) == Byte(y >> 40) && Byte(x >> 32) == Byte(y >> 32)
    requires Byte(x >> 24) == Byte(y >> 24) && Byte(x >> 16) == Byte(y >> 16)
    requires Byte(x >> 8) == Byte(y >> 8) && Byte(x) == Byte(y)
    ensures x == y
  {
  }

  // ---------------------------------------------------------------------------
  // Digits
  // ---------------------------------------------------------------------------

  lemma DigitStep(q: int, r: int, q': int, r': int)
    requires 0 <= r < 256 && 0 <= r' < 256 && q * 256 + r == q' * 256 + r'
    ensures q == q' && r == r'
  {
  }

  /** Base-256 digits are unique. */
  lemma HornerInj(a7: int, a6: int, a5: int, a4: int, a3: int, a2: int, a1: int, a0: int,
                  b7: int, b6: int, b5: int, b4: int, b3: int, b2: int, b1: int, b0: int)
    requires 0 <= a7 < 256 && 0 <= a6 < 256 && 0 <= a5 < 256 && 0 <= a4 < 256
    requires 0 <= a3 < 256 && 0 <= a2 < 256 && 0 <= a1 < 256 && 0 <= a0 < 256
    requires 0 <= b7 < 256 && 0 <= b6 < 256 && 0 <= b5 < 256 && 0 <= b4 < 256
    requires 0 <= b3 < 256 && 0 <= b2 < 256 && 0 <= b1 < 256 && 0 <= b0 < 256
    requires Horner(a7, a6, a5, a4, a3, a2, a1, a0) == Horner(b7, b6, b5, b4, b3, b2, b1, b0)
    ensures a7 == b7 && a6 == b6 && a5 == b5 && a4 == b4 && a3 == b3 && a2 == b2 && a1 == b1 && a0 == b0
  {
    DigitStep((((((a7 * 256 + a6) * 256 + a5) * 256 + a4) * 256 + a3) * 256 + a2) * 256 + a1, a0,
              (((((b7 * 256 + b6) * 256 + b5) * 256 + b4) * 256 + b3) * 256 + b2) * 256 + b1, b0);
    DigitStep(((((a7 * 256 + a6) * 256 + a5) * 256 + a4) * 256 + a3) * 256 + a2, a1,
              ((((b7 * 256 + b6) * 256 + b5) * 256 + b4) * 256 + b3) * 256 + b2, b1);
    DigitStep((((a7 * 256 + a6) * 256 + a5) * 256 + a4) * 256 + a3, a2,
              (((b7 * 256 + b6) * 256 + b5) * 256 + b4) * 256 + b3, b2);
    DigitStep(((a7 * 256 + a6) * 256 + a5) * 256 + a4, a3, ((b7 * 256 + b6) * 256 + b5) * 256 + b4, b3);
    DigitStep((a7 * 256 + a6) * 256 + a5, a4, (b7 * 256 + b6) * 256 + b5, b4);
    DigitStep(a7 * 256 + a6, a5, b7 * 256 + b6, b5);
    DigitStep(a7, a6, b7, b6);
  }

  lemma DigitRanges(x: bv64)
    ensures 0 <= ByteValue(Byte(x >> 56)) < 256 && 0 <= ByteValue(Byte(x >> 48)) < 256
    ensures 0 <= ByteValue(Byte(x >> 40)) < 256 && 0 <= ByteValue(Byte(x >> 32)) < 256
    ensures 0 <= ByteValue(Byte(x >> 24)) < 256 && 0 <= ByteValue(Byte(x >> 16)) < 256
    ensures 0 <= ByteValue(Byte(x >> 8)) < 256 && 0 <= ByteValue(Byte(x)) < 256
  {
  }

  lemma LowBytesStep0(x: bv64)
    ensures LowBytes(x, 8) == LowBytes(x >> 8, 7) * 256 + ByteValue(Byte(x))
  {
  }

  lemma LowBytesStep1(x: bv64)
    ensures LowBytes(x >> 8, 7) == LowBytes(x >> 16, 6) * 256 + ByteValue(Byte(x >> 8))
  {
    assert (x >> 8) >> 8 == x >> 16;
  }

  lemma LowBytesStep2(x: bv64)
    ensures LowBytes(x >> 16, 6) == LowBytes(x >> 24, 5) * 256 + ByteValue(Byte(x >> 16))
  {
    assert (x >> 16) >> 8 == x >> 24;
  }

  lemma LowBytesStep3(x: bv64)
    ensures LowBytes(x >> 24, 5) == LowBytes(x >> 32, 4) * 256 + ByteValue(Byte(x >> 24))
  {
    assert (x >> 24) >> 8 == x >> 32;
  }

  lemma LowBytesStep4(x: bv64)
    ensures LowBytes(x >> 32, 4) == LowBytes(x >> 40, 3) * 256 + ByteValue(Byte(x >> 32))
  {
    assert (x >> 32) >> 8 == x >> 40;
  }

  lemma LowBytesStep5(x: bv64)
    ensures LowBytes(x >> 40, 3) == LowBytes(x >> 48, 2) * 256 + ByteValue(Byte(x >> 40))
  {
    assert (x >> 40) >> 8 == x >> 48;
  }

  lemma LowBytesStep6(x: bv64)
    ensures LowBytes(x >> 48, 2) == LowBytes(x >> 56, 1) * 256 + ByteValue(Byte(x >> 48))
  {
    assert (x >> 48) >> 8 == x >> 56;
  }

  lemma LowBytesStep7(x: bv64)
    ensures LowBytes(x >> 56, 1) == ByteValue(Byte(x >> 56))
  {
    assert LowBytes(x >> 56, 1) == LowBytes((x >> 56) >> 8, 0) * 256 + ByteValue(Byte(x >> 56));
  }

  /** The unsigned value of a long is its eight bytes as base-256 digits. */
  lemma UnsignedHorner(x: bv64)
    ensures Unsigned(x) == Horner(ByteValue(Byte(x >> 56)), ByteValue(Byte(x >> 48)), ByteValue(Byte(x >> 40)), ByteValue(Byte(x >> 32)),
                                  ByteValue(Byte(x >> 24)), ByteValue(Byte(x >> 16)), ByteValue(Byte(x >> 8)), ByteValue(Byte(x)))
  {
    LowBytesStep0(x); LowBytesStep1(x); LowBytesStep2(x); LowBytesStep3(x);
    LowBytesStep4(x); LowBytesStep5(x); LowBytesStep6(x); LowBytesStep7(x);
  }

  // ---------------------------------------------------------------------------
  // The unsigned value
  // ---------------------------------------------------------------------------

  /** The unsigned value of a long lies in [0, 2^64). */
  lemma UnsignedRange(x: bv64)
    ensures 0 <= Unsigned(x) < TWO64
  {
    UnsignedHorner(x);
    DigitRanges(x);
  }

  /** Equal unsigned values have equal bytes. */
  lemma UnsignedDigitsInj(x: bv64, y: bv64)
    requires Unsigned(x) == Unsigned(y)
    ensures ByteValue(Byte(x >> 56)) == ByteValue(Byte(y >> 56)) && ByteValue(Byte(x >> 48)) == ByteValue(Byte(y >> 48))
    ensures ByteValue(Byte(x >> 40)) == ByteValue(Byte(y >> 40)) && ByteValue(Byte(x >> 32)) == ByteValue(Byte(y >> 32))
    ensures ByteValue(Byte(x >> 24)) == ByteValue(Byte(y >> 24)) && ByteValue(Byte(x >> 16)) == ByteValue(Byte(y >> 16))
    ensures ByteValue(Byte(x >> 8)) == ByteValue(Byte(y >> 8)) && ByteValue(Byte(x)) == ByteValue(Byte(y))
  {
    UnsignedHorner(x);
    UnsignedHorner(y);
    DigitRanges(x);
    DigitRanges(y);
    HornerInj(ByteValue(Byte(x >> 56)), ByteValue(Byte(x >> 48)), ByteValue(Byte(x >> 40)), ByteValue(Byte(x >> 32)),
              ByteValue(Byte(x >> 24)), ByteValue(Byte(x >> 16)), ByteValue(Byte(x >> 8)), ByteValue(Byte(x)),
              ByteValue(Byte(y >> 56)), ByteValue(Byte(y >> 48)), ByteValue(Byte(y >> 40)), ByteValue(Byte(y >> 32)),
              ByteValue(Byte(y >> 24)), ByteValue(Byte(y >> 16)), ByteValue(Byte(y >> 8)), ByteValue(Byte(y)));
  }

  /** Distinct longs have distinct unsigned values. */
  lemma UnsignedInjective(x: bv64, y: bv64)
    ensures Unsigned(x) == Unsigned(y) <==> x == y
  {
    if Unsigned(x) == Unsigned(y) {
      UnsignedDigitsInj(x, y);
      ByteInj(Byte(x >> 56), Byte(y >> 56));
      ByteInj(Byte(x >> 48), Byte(y >> 48));
      ByteInj(Byte(x >> 40), Byte(y >> 40));
      ByteInj(Byte(x >> 32), Byte(y >> 32));
      ByteInj(Byte(x >> 24), Byte(y >> 24));
      ByteInj(Byte(x >> 16), Byte(y >> 16));
      ByteInj(Byte(x >> 8), Byte(y >> 8));
      ByteInj(Byte(x), Byte(y));
      BytesDetermine(x, y);
    }
  }

  /** Zero and all ones are the least and the greatest unsigned values. */
  lemma UnsignedZeroAndOnes()
    ensures Unsigned(0) == 0 && Unsigned(0xffff_ffff_ffff_ffff) == TWO64 - 1
  {
    UnsignedHorner(0);
    UnsignedHorner(0xffff_ffff_ffff_ffff);
  }

  /** Clearing the low 16 bits floors the value, setting them ceils it. */
  lemma FloorAndCeiling(x: bv64)
    ensures Unsigned(((x >> 16) << 16) | 0x0000) <= Unsigned(x) <= Unsigned(((x >> 16) << 16) | 0xffff)
  {
    FloorDigits(x);
    CeilingDigits(x);
    UnsignedHorner(x);
    DigitRanges(x);
    var d7, d6, d5, d4 := ByteValue(Byte(x >> 56)), ByteValue(Byte(x >> 48)), ByteValue(Byte(x >> 40)), ByteValue(Byte(x >> 32));
    var d3, d2, d1, d0 := ByteValue(Byte(x >> 24)), ByteValue(Byte(x >> 16)), ByteValue(Byte(x >> 8)), ByteValue(Byte(x));
    HornerLowTwo(d7, d6, d5, d4, d3, d2, d1, d0);
  }

  /** The two lowest digits lie between 00 and ff ff. */
  lemma HornerLowTwo(d7: int, d6: int, d5: int, d4: int, d3: int, d2: int, d1: int, d0: int)
    requires 0 <= d1 < 256 && 0 <= d0 < 256
    ensures Horner(d7, d6, d5, d4, d3, d2, 0, 0) <= Horner(d7, d6, d5, d4, d3, d2, d1, d0) <= Horner(d7, d6, d5, d4, d3, d2, 255, 255)
  {
  }

  lemma FloorDigits(x: bv64)
    ensures Unsigned(((x >> 16) << 16) | 0x0000) == Horner(ByteValue(Byte(x >> 56)), ByteValue(Byte(x >> 48)), ByteValue(Byte(x >> 40)), ByteValue(Byte(x >> 32)), ByteValue(Byte(x >> 24)), ByteValue(Byte(x >> 16)), 0, 0)
  {
    var f := ((x >> 16) << 16) | 0x0000;
    UnsignedHorner(f);
    LowTwoBytes(x);
    HighBytes2(x);
    HighBytes2(f);
  }

  lemma CeilingDigits(x: bv64)
    ensures Unsigned(((x >> 16) << 16) | 0xffff) == Horner(ByteValue(Byte(x >> 56)), ByteValue(Byte(x >> 48)), ByteValue(Byte(x >> 40)), ByteValue(Byte(x >> 32)), ByteValue(Byte(x >> 24)), ByteValue(Byte(x >> 16)), 255, 255)
  {
    var c := ((x >> 16) << 16) | 0xffff;
    UnsignedHorner(c);
    LowTwoBytes(x);
    HighBytes2(x);
    HighBytes2(c);
  }

  lemma LowTwoBytes(x: bv64)
    ensures (((x >> 16) << 16) | 0x0000) >> 16 == x >> 16
    ensures (((x >> 16) << 16) | 0xffff) >> 16 == x >> 16
    ensures Byte(((x >> 16) << 16) | 0x0000) == 0 && Byte((((x >> 16) << 16) | 0x0000) >> 8) == 0
    ensures Byte(((x >> 16) << 16) | 0xffff) == 0xff && Byte((((x >> 16) << 16) | 0xffff) >> 8) == 0xff
  {
  }

  /** Adding 2^63 (mod 2^64) flips the top bit and keeps the other seven bytes. */
  lemma HalfShiftBytes(a: bv64)
    ensures Byte((a + 0x8000_0000_0000_0000) >> 56) == Byte(a >> 56) ^ 0x80
    ensures Byte((a + 0x8000_0000_0000_0000) >> 48) == Byte(a >> 48)
    ensures Byte((a + 0x8000_0000_0000_0000) >> 40) == Byte(a >> 40)
    ensures Byte((a + 0x8000_0000_0000_0000) >> 32) == Byte(a >> 32)
    ensures Byte((a + 0x8000_0000_0000_0000) >> 24) == Byte(a >> 24)
    ensures Byte((a + 0x8000_0000_0000_0000) >> 16) == Byte(a >> 16)
    ensures Byte((a + 0x8000_0000_0000_0000) >> 8) == Byte(a >> 8)
    ensures Byte(a + 0x8000_0000_0000_0000) == Byte(a)
  {
  }

  /** Adding 2^63 (mod 2^64) adds or removes 2^63 from the unsigned value. */
  lemma UnsignedOfHalfShift(a: bv64)
    ensures Unsigned(a + 0x8000_0000_0000_0000) == if a & 0x8000_0000_0000_0000 == 0 then Unsigned(a) + TWO63 else Unsigned(a) - TWO63
  {
    HalfShiftTopBit(a);
    if Byte(a >> 56) & 0x80 == 0 {
      HalfShiftUp(a);
    } else {
      HalfShiftDown(a);
    }
  }

  lemma HalfShiftTopBit(a: bv64)
    ensures (a & 0x8000_0000_0000_0000 == 0) == (Byte(a >> 56) & 0x80 == 0)
  {
  }

  lemma HalfShiftUp(a: bv64)
    requires Byte(a >> 56) & 0x80 == 0
    ensures Unsigned(a + 0x8000_0000_0000_0000) == Unsigned(a) + TWO63
  {
    HalfShiftDigits(a);
    UnsignedHorner(a);
    TopBitFlip(Byte(a >> 56));
  }

  lemma HalfShiftDown(a: bv64)
    requires Byte(a >> 56) & 0x80 != 0
    ensures Unsigned(a + 0x8000_0000_0000_0000) == Unsigned(a) - TWO63
  {
    HalfShiftDigits(a);
    UnsignedHorner(a);
    TopBitFlip(Byte(a >> 56));
  }

  lemma HalfShiftDigits(a: bv64)
    ensures Unsigned(a + 0x8000_0000_0000_0000) ==
      Horner(ByteValue(Byte(a >> 56) ^ 0x80), ByteValue(Byte(a >> 48)), ByteValue(Byte(a >> 40)), ByteValue(Byte(a >> 32)),
             ByteValue(Byte(a >> 24)), ByteValue(Byte(a >> 16)), ByteValue(Byte(a >> 8)), ByteValue(Byte(a)))
  {
    UnsignedHorner(a + 0x8000_0000_0000_0000);
    HalfShiftBytes(a);
  }

  /** Adding 2^63 (mod 2^64) flips the sign bit. */
  lemma HalfShiftSign(a: bv64)
    ensures ((a + 0x8000_0000_0000_0000) & 0x8000_0000_0000_0000 == 0) == (a & 0x8000_0000_0000_0000 != 0)
  {
  }

  /**
   * Adding 2^63 maps the unsigned range onto the signed one in order: the
   * signed value of a + 2^63 is the unsigned value of a, less 2^63. This is
   * why comparing shifted longs with Java's signed `<` compares the
   * originals as unsigned numbers.
   */
  lemma SignedOfHalfShift(a: bv64)
    ensures Signed(a + 0x8000_0000_0000_0000) == Unsigned(a) - TWO63
  {
    UnsignedOfHalfShift(a);
    HalfShiftSign(a);
  }

  /** Java's `a > b` on two longs: a signed comparison. */
  predicate LongGreater(a: bv64, b: bv64)
  {
    Signed(a) > Signed(b)
  }

  /** After both are shifted by 2^63, Java's signed `>` is the unsigned order of the originals. */
  lemma ShiftedGreater(a: bv64, b: bv64)
    ensures LongGreater(a + 0x8000_0000_0000_0000, b + 0x8000_0000_0000_0000) <==> Unsigned(a) > Unsigned(b)
  {
    SignedOfHalfShift(a);
    SignedOfHalfShift(b);
  }

  // ---------------------------------------------------------------------------
  // Adding one
  // ---------------------------------------------------------------------------

  /** Adding one to a long whose low byte is not 0xff increments that byte. */
  lemma CarryLow0(x: bv64)
    requires Byte(x) != 0xff
    ensures Byte(x + 1) == Byte(x) + 1
  {
  }

  /** ... and the carry stops there: bytes 1 to 7 are unchanged. */
  lemma CarryHigh0(x: bv64)
    requires Byte(x) != 0xff
    ensures (x + 1) >> 8 == x >> 8
  {
  }

  /** Adding one to a long whose bytes 0 to 0 are 0xff and byte 1 is not: the carry clears bytes 0 to 0 and increments byte 1. */
  lemma CarryLow1(x: bv64)
    requires Byte(x) == 0xff && Byte(x >> 8) != 0xff
    ensures Byte(x + 1) == 0
    ensures Byte((x + 1) >> 8) == Byte(x >> 8) + 1
  {
  }

  /** ... and the carry stops there: bytes 2 to 7 are unchanged. */
  lemma CarryHigh1(x: bv64)
    requires Byte(x) == 0xff && Byte(x >> 8) != 0xff
    ensures (x + 1) >> 16 == x >> 16
  {
  }

  /** Adding one to a long whose bytes 0 to 1 are 0xff and byte 2 is not: the carry clears bytes 0 to 1 and increments byte 2. */
  lemma CarryLow2(x: bv64)
    requires Byte(x) == 0xff && Byte(x >> 8) == 0xff && Byte(x >> 16) != 0xff
    ensures Byte(x + 1) == 0
    ensures Byte((x + 1) >> 8) == 0
    ensures Byte((x + 1) >> 16) == Byte(x >> 16) + 1
  {
  }

  /** ... and the carry stops there: bytes 3 to 7 are unchanged. */
  lemma CarryHigh2(x: bv64)
    requires Byte(x) == 0xff && Byte(x >> 8) == 0xff && Byte(x >> 16) != 0xff
    ensures (x + 1) >> 24 == x >> 24
  {
  }

  /** Adding one to a long whose bytes 0 to 2 are 0xff and byte 3 is not: the carry clears bytes 0 to 2 and increments byte 3. */
  lemma CarryLow3(x: bv64)
    requires Byte(x) == 0xff && Byte(x >> 8) == 0xff && Byte(x >> 16) == 0xff && Byte(x >> 24) != 0xff
    ensures Byte(x + 1) == 0
    ensures Byte((x + 1) >> 8) == 0
    ensures Byte((x + 1) >> 16) == 0
    ensures Byte((x + 1) >> 24) == Byte(x >> 24) + 1
  {
  }

  /** ... and the carry stops there: bytes 4 to 7 are unchanged. */
  lemma CarryHigh3(x: bv64)
    requires Byte(x) == 0xff && Byte(x >> 8) == 0xff && Byte(x >> 16) == 0xff && Byte(x >> 24) != 0xff
    ensures (x + 1) >> 32 == x >> 32
  {
  }

  /** Adding one to a long whose bytes 0 to 3 are 0xff and byte 4 is not: the carry clears bytes 0 to 3 and increments byte 4. */
  lemma CarryLow4(x: bv64)
    requires Byte(x) == 0xff && Byte(x >> 8) == 0xff && Byte(x >> 16) == 0xff && Byte(x >> 24) == 0xff && Byte(x >> 32) != 0xff
    ensures Byte(x + 1) == 0
    ensures Byte((x + 1) >> 8) == 0
    ensures Byte((x + 1) >> 16) == 0
    ensures Byte((x + 1) >> 24) == 0
    ensures Byte((x + 1) >> 32) == Byte(x >> 32) + 1
  {
  }

  /** ... and the carry stops there: bytes 5 to 7 are unchanged. */
  lemma CarryHigh4(x: bv64)
    requires Byte(x) == 0xff && Byte(x >> 8) == 0xff && Byte(x >> 16) == 0xff && Byte(x >> 24) == 0xff && Byte(x >> 32) != 0xff
    ensures (x + 1) >> 40 == x >> 40
  {
  }

  /** Adding one to a long whose bytes 0 to 4 are 0xff and byte 5 is not: the carry clears bytes 0 to 4 and increments byte 5. */
  lemma CarryLow5(x: bv64)
    requires Byte(x) == 0xff && Byte(x >> 8) == 0xff && Byte(x >> 16) == 0xff && Byte(x >> 24) == 0xff && Byte(x >> 32) == 0xff && Byte(x >> 40) != 0xff
    ensures Byte(x + 1) == 0
    ensures Byte((x + 1) >> 8) == 0
    ensures Byte((x + 1) >> 16) == 0
    ensures Byte((x + 1) >> 24) == 0
    ensures Byte((x + 1) >> 32) == 0
    ensures Byte((x + 1) >> 40) == Byte(x >> 40) + 1
  {
  }

  /** ... and the carry stops there: bytes 6 to 7 are unchanged. */
  lemma CarryHigh5(x: bv64)
    requires Byte(x) == 0xff && Byte(x >> 8) == 0xff && Byte(x >> 16) == 0xff && Byte(x >> 24) == 0xff && Byte(x >> 32) == 0xff && Byte(x >> 40) != 0xff
    ensures (x + 1) >> 48 == x >> 48
  {
  }

  /** Adding one to a long whose bytes 0 to 5 are 0xff and byte 6 is not: the carry clears bytes 0 to 5 and increments byte 6. */
  lemma CarryLow6(x: bv64)
    requires Byte(x) == 0xff && Byte(x >> 8) == 0xff && Byte(x >> 16) == 0xff && Byte(x >> 24) == 0xff && Byte(x >> 32) == 0xff && Byte(x >> 40) == 0xff && Byte(x >> 48) != 0xff
    ensures Byte(x + 1) == 0
    ensures Byte((x + 1) >> 8) == 0
    ensures Byte((x + 1) >> 16) == 0
    ensures Byte((x + 1) >> 24) == 0
    ensures Byte((x + 1) >> 32) == 0
    ensures Byte((x + 1) >> 40) == 0
    ensures Byte((x + 1) >> 48) == Byte(x >> 48) + 1
  {
  }

  /** ... and the carry stops there: bytes 7 to 7 are unchanged. */
  lemma CarryHigh6(x: bv64)
    requires Byte(x) == 0xff && Byte(x >> 8) == 0xff && Byte(x >> 16) == 0xff && Byte(x >> 24) == 0xff && Byte(x >> 32) == 0xff && Byte(x >> 40) == 0xff && Byte(x >> 48) != 0xff
    ensures (x + 1) >> 56 == x >> 56
  {
  }

  /** Adding one to a long whose bytes 0 to 6 are 0xff and byte 7 is not: the carry clears bytes 0 to 6 and increments byte 7. */
  lemma CarryLow7(x: bv64)
    requires Byte(x) == 0xff && Byte(x >> 8) == 0xff && Byte(x >> 16) == 0xff && Byte(x >> 24) == 0xff && Byte(x >> 32) == 0xff && Byte(x >> 40) == 0xff && Byte(x >> 48) == 0xff && Byte(x >> 56) != 0xff
    ensures Byte(x + 1) == 0
    ensures Byte((x + 1) >> 8) == 0
    ensures Byte((x + 1) >> 16) == 0
    ensures Byte((x + 1) >> 24) == 0
    ensures Byte((x + 1) >> 32) == 0
    ensures Byte((x + 1) >> 40) == 0
    ensures Byte((x + 1) >> 48) == 0
    ensures Byte((x + 1) >> 56) == Byte(x >> 56) + 1
  {
  }

  /** Bytes 2 to 7 of a long are bytes 1 to 6 of its shift right by 8. */
  lemma HighBytes1(x: bv64)
    ensures Byte(x >> 16) == Byte((x >> 8) >> 8)
    ensures Byte(x >> 24) == Byte((x >> 8) >> 16)
    ensures Byte(x >> 32) == Byte((x >> 8) >> 24)
    ensures Byte(x >> 40) == Byte((x >> 8) >> 32)
    ensures Byte(x >> 48) == Byte((x >> 8) >> 40)
    ensures Byte(x >> 56) == Byte((x >> 8) >> 48)
  {
  }

  /** Bytes 3 to 7 of a long are bytes 1 to 5 of its shift right by 16. */
  lemma HighBytes2(x: bv64)
    ensures Byte(x >> 24) == Byte((x >> 16) >> 8)
    ensures Byte(x >> 32) == Byte((x >> 16) >> 16)
    ensures Byte(x >> 40) == Byte((x >> 16) >> 24)
    ensures Byte(x >> 48) == Byte((x >> 16) >> 32)
    ensures Byte(x >> 56) == Byte((x >> 16) >> 40)
  {
  }

  /** Bytes 4 to 7 of a long are bytes 1 to 4 of its shift right by 24. */
  lemma HighBytes3(x: bv64)
    ensures Byte(x >> 32) == Byte((x >> 24) >> 8)
    ensures Byte(x >> 40) == Byte((x >> 24) >> 16)
    ensures Byte(x >> 48) == Byte((x >> 24) >> 24)
    ensures Byte(x >> 56) == Byte((x >> 24) >> 32)
  {
  }

  /** Bytes 5 to 7 of a long are bytes 1 to 3 of its shift right by 32. */
  lemma HighBytes4(x: bv64)
    ensures Byte(x >> 40) == Byte((x >> 32) >> 8)
    ensures Byte(x >> 48) == Byte((x >> 32) >> 16)
    ensures Byte(x >> 56) == Byte((x >> 32) >> 24)
  {
  }

  /** Bytes 6 to 7 of a long are bytes 1 to 2 of its shift right by 40. */
  lemma HighBytes5(x: bv64)
    ensures Byte(x >> 48) == Byte((x >> 40) >> 8)
    ensures Byte(x >> 56) == Byte((x >> 40) >> 16)
  {
  }

  /** Byte 7 of a long is byte 1 of its shift right by 48. */
  lemma HighBytes6(x: bv64)
    ensures Byte(x >> 56) == Byte((x >> 48) >> 8)
  {
  }

  /** Adding one to the lowest base-256 digit. */
  lemma HornerCarry0(d7: int, d6: int, d5: int, d4: int, d3: int, d2: int, d1: int, d0: int)
    ensures Horner(d7, d6, d5, d4, d3, d2, d1, d0 + 1) == Horner(d7, d6, d5, d4, d3, d2, d1, d0) + 1
  {
  }

  lemma IncrementDigits0(x: bv64)
    requires Byte(x) != 0xff
    ensures Unsigned(x + 1) == Horner(ByteValue(Byte(x >> 56)), ByteValue(Byte(x >> 48)), ByteValue(Byte(x >> 40)), ByteValue(Byte(x >> 32)), ByteValue(Byte(x >> 24)), ByteValue(Byte(x >> 16)), ByteValue(Byte(x >> 8)), ByteValue(Byte(x)) + 1)
  {
    UnsignedHorner(x + 1);
    CarryLow0(x);
    CarryHigh0(x);
    HighBytes1(x);
    HighBytes1(x + 1);
    ByteInc(Byte(x));
  }

  lemma IncrementAt0(x: bv64)
    requires Byte(x) != 0xff
    ensures Unsigned(x + 1) == Unsigned(x) + 1
  {
    IncrementDigits0(x);
    UnsignedHorner(x);
    var d7, d6, d5, d4 := ByteValue(Byte(x >> 56)), ByteValue(Byte(x >> 48)), ByteValue(Byte(x >> 40)), ByteValue(Byte(x >> 32));
    var d3, d2, d1, d0 := ByteValue(Byte(x >> 24)), ByteValue(Byte(x >> 16)), ByteValue(Byte(x >> 8)), ByteValue(Byte(x));
    HornerCarry0(d7, d6, d5, d4, d3, d2, d1, d0);
  }

  /** The base-256 carry: digits 0 to 0 at 255 roll over into digit 1. */
  lemma HornerCarry1(d7: int, d6: int, d5: int, d4: int, d3: int, d2: int, d1: int, d0: int)
    requires d0 == 255
    ensures Horner(d7, d6, d5, d4, d3, d2, d1 + 1, 0) == Horner(d7, d6, d5, d4, d3, d2, d1, d0) + 1
  {
  }

  lemma IncrementDigits1(x: bv64)
    requires Byte(x) == 0xff && Byte(x >> 8) != 0xff
    ensures Unsigned(x + 1) == Horner(ByteValue(Byte(x >> 56)), ByteValue(Byte(x >> 48)), ByteValue(Byte(x >> 40)), ByteValue(Byte(x >> 32)), ByteValue(Byte(x >> 24)), ByteValue(Byte(x >> 16)), ByteValue(Byte(x >> 8)) + 1, 0)
  {
    UnsignedHorner(x + 1);
    CarryLow1(x);
    CarryHigh1(x);
    HighBytes2(x);
    HighBytes2(x + 1);
    ByteInc(Byte(x >> 8));
  }

  lemma IncrementAt1(x: bv64)
    requires Byte(x) == 0xff && Byte(x >> 8) != 0xff
    ensures Unsigned(x + 1) == Unsigned(x) + 1
  {
    IncrementDigits1(x);
    UnsignedHorner(x);
    var d7, d6, d5, d4 := ByteValue(Byte(x >> 56)), ByteValue(Byte(x >> 48)), ByteValue(Byte(x >> 40)), ByteValue(Byte(x >> 32));
    var d3, d2, d1, d0 := ByteValue(Byte(x >> 24)), ByteValue(Byte(x >> 16)), ByteValue(Byte(x >> 8)), ByteValue(Byte(x));
    HornerCarry1(d7, d6, d5, d4, d3, d2, d1, d0);
  }

  /** The base-256 carry: digits 0 to 1 at 255 roll over into digit 2. */
  lemma HornerCarry2(d7: int, d6: int, d5: int, d4: int, d3: int, d2: int, d1: int, d0: int)
    requires d0 == 255 && d1 == 255
    ensures Horner(d7, d6, d5, d4, d3, d2 + 1, 0, 0) == Horner(d7, d6, d5, d4, d3, d2, d1, d0) + 1
  {
  }

  lemma IncrementDigits2(x: bv64)
    requires Byte(x) == 0xff && Byte(x >> 8) == 0xff && Byte(x >> 16) != 0xff
    ensures Unsigned(x + 1) == Horner(ByteValue(Byte(x >> 56)), ByteValue(Byte(x >> 48)), ByteValue(Byte(x >> 40)), ByteValue(Byte(x >> 32)), ByteValue(Byte(x >> 24)), ByteValue(Byte(x >> 16)) + 1, 0, 0)
  {
    UnsignedHorner(x + 1);
    CarryLow2(x);
    CarryHigh2(x);
    HighBytes3(x);
    HighBytes3(x + 1);
    ByteInc(Byte(x >> 16));
  }

  lemma IncrementAt2(x: bv64)
    requires Byte(x) == 0xff && Byte(x >> 8) == 0xff && Byte(x >> 16) != 0xff
    ensures Unsigned(x + 1) == Unsigned(x) + 1
  {
    IncrementDigits2(x);
    UnsignedHorner(x);
    var d7, d6, d5, d4 := ByteValue(Byte(x >> 56)), ByteValue(Byte(x >> 48)), ByteValue(Byte(x >> 40)), ByteValue(Byte(x >> 32));
    var d3, d2, d1, d0 := ByteValue(Byte(x >> 24)), ByteValue(Byte(x >> 16)), ByteValue(Byte(x >> 8)), ByteValue(Byte(x));
    HornerCarry2(d7, d6, d5, d4, d3, d2, d1, d0);
  }

  /** The base-256 carry: digits 0 to 2 at 255 roll over into digit 3. */
  lemma HornerCarry3(d7: int, d6: int, d5: int, d4: int, d3: int, d2: int, d1: int, d0: int)
    requires d0 == 255 && d1 == 255 && d2 == 255
    ensures Horner(d7, d6, d5, d4, d3 + 1, 0, 0, 0) == Horner(d7, d6, d5, d4, d3, d2, d1, d0) + 1
  {
  }

  lemma IncrementDigits3(x: bv64)
    requires Byte(x) == 0xff && Byte(x >> 8) == 0xff && Byte(x >> 16) == 0xff && Byte(x >> 24) != 0xff
    ensures Unsigned(x + 1) == Horner(ByteValue(Byte(x >> 56)), ByteValue(Byte(x >> 48)), ByteValue(Byte(x >> 40)), ByteValue(Byte(x >> 32)), ByteValue(Byte(x >> 24)) + 1, 0, 0, 0)
  {
    UnsignedHorner(x + 1);
    CarryLow3(x);
    CarryHigh3(x);
    HighBytes4(x);
    HighBytes4(x + 1);
    ByteInc(Byte(x >> 24));
  }

  lemma IncrementAt3(x: bv64)
    requires Byte(x) == 0xff && Byte(x >> 8) == 0xff && Byte(x >> 16) == 0xff && Byte(x >> 24) != 0xff
    ensures Unsigned(x + 1) == Unsigned(x) + 1
  {
    IncrementDigits3(x);
    UnsignedHorner(x);
    var d7, d6, d5, d4 := ByteValue(Byte(x >> 56)), ByteValue(Byte(x >> 48)), ByteValue(Byte(x >> 40)), ByteValue(Byte(x >> 32));
    var d3, d2, d1, d0 := ByteValue(Byte(x >> 24)), ByteValue(Byte(x >> 16)), ByteValue(Byte(x >> 8)), ByteValue(Byte(x));
    HornerCarry3(d7, d6, d5, d4, d3, d2, d1, d0);
  }

  /** The base-256 carry: digits 0 to 3 at 255 roll over into digit 4. */
  lemma HornerCarry4(d7: int, d6: int, d5: int, d4: int, d3: int, d2: int, d1: int, d0: int)
    requires d0 == 255 && d1 == 255 && d2 == 255 && d3 == 255
    ensures Horner(d7, d6, d5, d4 + 1, 0, 0, 0, 0) == Horner(d7, d6, d5, d4, d3, d2, d1, d0) + 1
  {
  }

  lemma IncrementDigits4(x: bv64)
    requires Byte(x) == 0xff && Byte(x >> 8) == 0xff && Byte(x >> 16) == 0xff && Byte(x >> 24) == 0xff && Byte(x >> 32) != 0xff
    ensures Unsigned(x + 1) == Horner(ByteValue(Byte(x >> 56)), ByteValue(Byte(x >> 48)), ByteValue(Byte(x >> 40)), ByteValue(Byte(x >> 32)) + 1, 0, 0, 0, 0)
  {
    UnsignedHorner(x + 1);
    CarryLow4(x);
    CarryHigh4(x);
    HighBytes5(x);
    HighBytes5(x + 1);
    ByteInc(Byte(x >> 32));
  }

  lemma IncrementAt4(x: bv64)
    requires Byte(x) == 0xff && Byte(x >> 8) == 0xff && Byte(x >> 16) == 0xff && Byte(x >> 24) == 0xff && Byte(x >> 32) != 0xff
    ensures Unsigned(x + 1) == Unsigned(x) + 1
  {
    IncrementDigits4(x);
    UnsignedHorner(x);
    var d7, d6, d5, d4 := ByteValue(Byte(x >> 56)), ByteValue(Byte(x >> 48)), ByteValue(Byte(x >> 40)), ByteValue(Byte(x >> 32));
    var d3, d2, d1, d0 := ByteValue(Byte(x >> 24)), ByteValue(Byte(x >> 16)), ByteValue(Byte(x >> 8)), ByteValue(Byte(x));
    HornerCarry4(d7, d6, d5, d4, d3, d2, d1, d0);
  }

  /** The base-256 carry: digits 0 to 4 at 255 roll over into digit 5. */
  lemma HornerCarry5(d7: int, d6: int, d5: int, d4: int, d3: int, d2: int, d1: int, d0: int)
    requires d0 == 255 && d1 == 255 && d2 == 255 && d3 == 255 && d4 == 255
    ensures Horner(d7, d6, d5 + 1, 0, 0, 0, 0, 0) == Horner(d7, d6, d5, d4, d3, d2, d1, d0) + 1
  {
  }

  lemma IncrementDigits5(x: bv64)
    requires Byte(x) == 0xff && Byte(x >> 8) == 0xff && Byte(x >> 16) == 0xff && Byte(x >> 24) == 0xff && Byte(x >> 32) == 0xff && Byte(x >> 40) != 0xff
    ensures Unsigned(x + 1) == Horner(ByteValue(Byte(x >> 56)), ByteValue(Byte(x >> 48)), ByteValue(Byte(x >> 40)) + 1, 0, 0, 0, 0, 0)
  {
    UnsignedHorner(x + 1);
    CarryLow5(x);
    CarryHigh5(x);
    HighBytes6(x);
    HighBytes6(x + 1);
    ByteInc(Byte(x >> 40));
  }

  lemma IncrementAt5(x: bv64)
    requires Byte(x) == 0xff && Byte(x >> 8) == 0xff && Byte(x >> 16) == 0xff && Byte(x >> 24) == 0xff && Byte(x >> 32) == 0xff && Byte(x >> 40) != 0xff
    ensures Unsigned(x + 1) == Unsigned(x) + 1
  {
    IncrementDigits5(x);
    UnsignedHorner(x);
    var d7, d6, d5, d4 := ByteValue(Byte(x >> 56)), ByteValue(Byte(x >> 48)), ByteValue(Byte(x >> 40)), ByteValue(Byte(x >> 32));
    var d3, d2, d1, d0 := ByteValue(Byte(x >> 24)), ByteValue(Byte(x >> 16)), ByteValue(Byte(x >> 8)), ByteValue(Byte(x));
    HornerCarry5(d7, d6, d5, d4, d3, d2, d1, d0);
  }

  /** The base-256 carry: digits 0 to 5 at 255 roll over into digit 6. */
  lemma HornerCarry6(d7: int, d6: int, d5: int, d4: int, d3: int, d2: int, d1: int, d0: int)
    requires d0 == 255 && d1 == 255 && d2 == 255 && d3 == 255 && d4 == 255 && d5 == 255
    ensures Horner(d7, d6 + 1, 0, 0, 0, 0, 0, 0) == Horner(d7, d6, d5, d4, d3, d2, d1, d0) + 1
  {
  }

  lemma IncrementDigits6(x: bv64)
    requires Byte(x) == 0xff && Byte(x >> 8) == 0xff && Byte(x >> 16) == 0xff && Byte(x >> 24) == 0xff && Byte(x >> 32) == 0xff && Byte(x >> 40) == 0xff && Byte(x >> 48) != 0xff
    ensures Unsigned(x + 1) == Horner(ByteValue(Byte(x >> 56)), ByteValue(Byte(x >> 48)) + 1, 0, 0, 0, 0, 0, 0)
  {
    UnsignedHorner(x + 1);
    CarryLow6(x);
    CarryHigh6(x);
    ByteInc(Byte(x >> 48));
  }

  lemma IncrementAt6(x: bv64)
    requires Byte(x) == 0xff && Byte(x >> 8) == 0xff && Byte(x >> 16) == 0xff && Byte(x >> 24) == 0xff && Byte(x >> 32) == 0xff && Byte(x >> 40) == 0xff && Byte(x >> 48) != 0xff
    ensures Unsigned(x + 1) == Unsigned(x) + 1
  {
    IncrementDigits6(x);
    UnsignedHorner(x);
    var d7, d6, d5, d4 := ByteValue(Byte(x >> 56)), ByteValue(Byte(x >> 48)), ByteValue(Byte(x >> 40)), ByteValue(Byte(x >> 32));
    var d3, d2, d1, d0 := ByteValue(Byte(x >> 24)), ByteValue(Byte(x >> 16)), ByteValue(Byte(x >> 8)), ByteValue(Byte(x));
    HornerCarry6(d7, d6, d5, d4, d3, d2, d1, d0);
  }

  /** The base-256 carry: digits 0 to 6 at 255 roll over into digit 7. */
  lemma HornerCarry7(d7: int, d6: int, d5: int, d4: int, d3: int, d2: int, d1: int, d0: int)
    requires d0 == 255 && d1 == 255 && d2 == 255 && d3 == 255 && d4 == 255 && d5 == 255 && d6 == 255
    ensures Horner(d7 + 1, 0, 0, 0, 0, 0, 0, 0) == Horner(d7, d6, d5, d4, d3, d2, d1, d0) + 1
  {
  }

  lemma IncrementDigits7(x: bv64)
    requires Byte(x) == 0xff && Byte(x >> 8) == 0xff && Byte(x >> 16) == 0xff && Byte(x >> 24) == 0xff && Byte(x >> 32) == 0xff && Byte(x >> 40) == 0xff && Byte(x >> 48) == 0xff && Byte(x >> 56) != 0xff
    ensures Unsigned(x + 1) == Horner(ByteValue(Byte(x >> 56)) + 1, 0, 0, 0, 0, 0, 0, 0)
  {
    UnsignedHorner(x + 1);
    CarryLow7(x);
    ByteInc(Byte(x >> 56));
  }

  lemma IncrementAt7(x: bv64)
    requires Byte(x) == 0xff && Byte(x >> 8) == 0xff && Byte(x >> 16) == 0xff && Byte(x >> 24) == 0xff && Byte(x >> 32) == 0xff && Byte(x >> 40) == 0xff && Byte(x >> 48) == 0xff && Byte(x >> 56) != 0xff
    ensures Unsigned(x + 1) == Unsigned(x) + 1
  {
    IncrementDigits7(x);
    UnsignedHorner(x);
    var d7, d6, d5, d4 := ByteValue(Byte(x >> 56)), ByteValue(Byte(x >> 48)), ByteValue(Byte(x >> 40)), ByteValue(Byte(x >> 32));
    var d3, d2, d1, d0 := ByteValue(Byte(x >> 24)), ByteValue(Byte(x >> 16)), ByteValue(Byte(x >> 8)), ByteValue(Byte(x));
    HornerCarry7(d7, d6, d5, d4, d3, d2, d1, d0);
  }

  /** Adding one to a long adds one to its unsigned value, except that all ones wraps to zero. */
  lemma UnsignedIncrement(x: bv64)
    ensures Unsigned(x + 1) == if x == 0xffff_ffff_ffff_ffff then 0 else Unsigned(x) + 1
  {
    if Byte(x) != 0xff {
      IncrementAt0(x);
    } else if Byte(x >> 8) != 0xff {
      IncrementAt1(x);
    } else if Byte(x >> 16) != 0xff {
      IncrementAt2(x);
    } else if Byte(x >> 24) != 0xff {
      IncrementAt3(x);
    } else if Byte(x >> 32) != 0xff {
      IncrementAt4(x);
    } else if Byte(x >> 40) != 0xff {
      IncrementAt5(x);
    } else if Byte(x >> 48) != 0xff {
      IncrementAt6(x);
    } else if Byte(x >> 56) != 0xff {
      IncrementAt7(x);
    } else {
      BytesDetermine(x, 0xffff_ffff_ffff_ffff);
      UnsignedZeroAndOnes();
    }
  }
}
