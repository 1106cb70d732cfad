/**
 * The ULID value type of Ulid.java: an immutable 128-bit identifier held as
 * two 64-bit halves, `msb` and `lsb`. The top 48 bits are a millisecond time
 * and the remaining 80 bits are random, as in the "Binary Layout" section of
 * the ULID specification. Java's `long` is modelled as `bv64` (its `+`
 * wraps around the same way) and Java's `byte` as `bv8`.
 */
module Ulids {
  import opened Wrappers
  import opened JavaLongs

  /** A ULID: the most and least significant 64 bits. */
  datatype Ulid = Ulid(msb: bv64, lsb: bv64)

  /** The IllegalArgumentException cases of Ulid.java. */
  datatype Error =
    | InvalidTime    // time does not fit in 48 bits
    | InvalidRandom  // random component is null or not 10 bytes
    | InvalidBytes   // byte form is null or not 16 bytes
    | InvalidString  // canonical string fails isValid

  const UlidChars: nat := 26
  const UlidBytes: nat := 16
  const RandomBytes: nat := 10

  /** The largest time a ULID can carry, 2^48 - 1. */
  const MaxTime: bv64 := 0xffff_ffff_ffff

  /** MIN: all 128 bits zero. */
  const Min: Ulid := Ulid(0, 0)

  /** MAX: all 128 bits one. */
  const Max: Ulid := Ulid(0xffff_ffff_ffff_ffff, 0xffff_ffff_ffff_ffff)

  const TWO128: int := 0x1_0000_0000_0000_0000_0000_0000_0000_0000

  /** The unsigned 128-bit integer a ULID stands for: msb is the high half, weighted by 2^64. */
  function Value(u: Ulid): (v: int)
    ensures 0 <= v < TWO128
  {
    UnsignedRange(u.msb);
    UnsignedRange(u.lsb);
    Unsigned(u.msb) * 0x1_0000_0000_0000_0000 + Unsigned(u.lsb)
  }

  // ---------------------------------------------------------------------------
  // Time and random components
  // ---------------------------------------------------------------------------

  /** getTime(): the top 48 bits. */
  function GetTime(u: Ulid): (t: bv64)
    ensures t <= MaxTime
  {
    TimeBits(u.msb)
  }

  /** The 48 time bits at the top of msb. */
  function TimeBits(msb: bv64): bv64
  {
    msb >> 16
  }

  /** getRandom(): the low 80 bits as 10 bytes, most significant first. */
  function GetRandom(u: Ulid): (r: seq<byte>)
    ensures |r| == RandomBytes
  {
    [Byte(u.msb >> 8), Byte(u.msb),
     Byte(u.lsb >> 56), Byte(u.lsb >> 48), Byte(u.lsb >> 40), Byte(u.lsb >> 32),
     Byte(u.lsb >> 24), Byte(u.lsb >> 16), Byte(u.lsb >> 8), Byte(u.lsb)]
  }

  /**
   * The constructor Ulid(long time, byte[] random). It rejects a time with
   * any of its top 16 bits set (negative or at least 2^48) and a random part
   * that is null or not 10 bytes long; otherwise the result carries exactly
   * the given time and random bytes.
   */
  function FromTimeAndRandom(time: bv64, random: Option<seq<byte>>): (r: Result<Ulid, Error>)
    ensures time > MaxTime ==> r == Err(InvalidTime)
    ensures time <= MaxTime && (random.None? || |random.value| != RandomBytes) ==> r == Err(InvalidRandom)
    ensures r.Ok? <==> time <= MaxTime && random.Some? && |random.value| == RandomBytes
  {
    if time & 0xffff_0000_0000_0000 != 0 then
      Err(InvalidTime)
    else if random.None? || |random.value| != RandomBytes then
      Err(InvalidRandom)
    else
      var b := random.value;
      var long0 := (time << 16) | (Long(b[0]) << 8) | Long(b[1]);
      var long1 := (Long(b[2]) << 56) | (Long(b[3]) << 48) | (Long(b[4]) << 40) | (Long(b[5]) << 32)
                 | (Long(b[6]) << 24) | (Long(b[7]) << 16) | (Long(b[8]) << 8) | Long(b[9]);
      Ok(Ulid(long0, long1))
  }

  /** A ULID built from a valid time carries that time. */
  lemma FromTimeAndRandomTime(time: bv64, random: seq<byte>)
    requires time <= MaxTime && |random| == RandomBytes
    ensures GetTime(FromTimeAndRandom(time, Some(random)).value) == time
  {
  }

  /** A ULID built from ten random bytes carries those bytes. */
  lemma FromTimeAndRandomRandom(time: bv64, random: seq<byte>)
    requires time <= MaxTime && |random| == RandomBytes
    ensures GetRandom(FromTimeAndRandom(time, Some(random)).value) == random
  {
  }

  /** A ULID is determined by its time and random components. */
  lemma TimeAndRandomDetermine(u: Ulid)
    ensures FromTimeAndRandom(GetTime(u), Some(GetRandom(u))) == Ok(u)
  {
  }

  /**
   * min(time): the given time with all 80 random bits zero. The time is not
   * checked: only its low 48 bits survive the shift.
   */
  function MinOf(time: bv64): (r: Ulid)
    ensures GetTime(r) == time & MaxTime
    ensures GetRandom(r) == seq(RandomBytes, _ => 0)
  {
    Ulid((time << 16) | 0x0000, 0x0000_0000_0000_0000)
  }

  /**
   * max(time): the given time with all 80 random bits one. The time is not
   * checked: only its low 48 bits survive the shift.
   */
  function MaxOf(time: bv64): (r: Ulid)
    ensures GetTime(r) == time & MaxTime
    ensures GetRandom(r) == seq(RandomBytes, _ => 0xff)
  {
    Ulid((time << 16) | 0xffff, 0xffff_ffff_ffff_ffff)
  }

  // ---------------------------------------------------------------------------
  // Byte form
  // ---------------------------------------------------------------------------

  /** Eight bytes packed into a long, most significant first. */
  function PackLong(b: seq<byte>): bv64
    requires |b| == 8
  {
    (Long(b[0]) << 56) | (Long(b[1]) << 48) | (Long(b[2]) << 40) | (Long(b[3]) << 32)
    | (Long(b[4]) << 24) | (Long(b[5]) << 16) | (Long(b[6]) << 8) | Long(b[7])
  }

  /** A long as eight bytes, most significant first. */
  function UnpackLong(x: bv64): (b: seq<byte>)
    ensures |b| == 8
  {
    [Byte(x >> 56), Byte(x >> 48), Byte(x >> 40), Byte(x >> 32),
     Byte(x >> 24), Byte(x >> 16), Byte(x >> 8), Byte(x)]
  }

  /** toBytes(): the 16 bytes of the ULID, most significant first. */
  function ToBytes(u: Ulid): (bytes: seq<byte>)
    ensures |bytes| == UlidBytes
  {
    UnpackLong(u.msb) + UnpackLong(u.lsb)
  }

  /** from(byte[]): rejects null and any length other than 16. */
  function FromBytes(bytes: Option<seq<byte>>): (r: Result<Ulid, Error>)
    ensures r.Err? <==> bytes.None? || |bytes.value| != UlidBytes
    ensures r.Err? ==> r.error == InvalidBytes
  {
    if bytes.None? || |bytes.value| != UlidBytes then
      Err(InvalidBytes)
    else
      Ok(Ulid(PackLong(bytes.value[..8]), PackLong(bytes.value[8..])))
  }

  /** from(toBytes(u)) gives back u. */
  lemma BytesRoundTrip(u: Ulid)
    ensures FromBytes(Some(ToBytes(u))) == Ok(u)
  {
    PackOfUnpack(u.msb);
    PackOfUnpack(u.lsb);
    var bytes := ToBytes(u);
    assert bytes[..8] == UnpackLong(u.msb) && bytes[8..] == UnpackLong(u.lsb);
  }

  /** Unpacking a long and packing the bytes gives the long back. */
  lemma PackOfUnpack(x: bv64)
    ensures PackLong(UnpackLong(x)) == x
  {
  }

  /** Packing eight bytes and unpacking the long gives the bytes back. */
  lemma UnpackOfPack(b: seq<byte>)
    requires |b| == 8
    ensures UnpackLong(PackLong(b)) == b
  {
  }

  /** toBytes(from(bytes)) gives back any 16 bytes. */
  lemma BytesRoundTripFromBytes(bytes: seq<byte>)
    requires |bytes| == UlidBytes
    ensures FromBytes(Some(bytes)).Ok? && ToBytes(FromBytes(Some(bytes)).value) == bytes
  {
    UnpackOfPack(bytes[..8]);
    UnpackOfPack(bytes[8..]);
    assert bytes == bytes[..8] + bytes[8..];
  }

  // ---------------------------------------------------------------------------
  // The 128-bit value
  // ---------------------------------------------------------------------------

  /** The halves compare lexicographically: msb first, then lsb. */
  lemma ValueLex(u: Ulid, v: Ulid)
    ensures Value(u) < Value(v) <==>
      Unsigned(u.msb) < Unsigned(v.msb) || (u.msb == v.msb && Unsigned(u.lsb) < Unsigned(v.lsb))
  {
    UnsignedRange(u.lsb);
    UnsignedRange(v.lsb);
    UnsignedInjective(u.msb, v.msb);
  }

  /** Distinct ULIDs have distinct values. */
  lemma ValueInjective(u: Ulid, v: Ulid)
    ensures Value(u) == Value(v) <==> u == v
  {
    ValueLex(u, v);
    ValueLex(v, u);
    UnsignedInjective(u.msb, v.msb);
    UnsignedInjective(u.lsb, v.lsb);
  }

  /** MIN and MAX are the least and the greatest 128-bit values. */
  lemma MinMaxValues()
    ensures Value(Min) == 0 && Value(Max) == TWO128 - 1
  {
    UnsignedZeroAndOnes();
  }

  // ---------------------------------------------------------------------------
  // Order and equality
  // ---------------------------------------------------------------------------

  /** The unsigned 128-bit order of ULIDs. */
  predicate Less(u: Ulid, v: Ulid)
  {
    Value(u) < Value(v)
  }

  /**
   * compareTo on the two halves: shift each by 2^63 (Long.MIN_VALUE) so
   * that Java's signed comparison orders them as unsigned numbers; the most
   * significant halves first, then the least significant ones.
   */
  function CompareHalves(msb: bv64, thatMsb: bv64, lsb: bv64, thatLsb: bv64): int
  {
    if LongGreater(msb + 0x8000_0000_0000_0000, thatMsb + 0x8000_0000_0000_0000) then 1
    else if LongGreater(thatMsb + 0x8000_0000_0000_0000, msb + 0x8000_0000_0000_0000) then -1
    else if LongGreater(lsb + 0x8000_0000_0000_0000, thatLsb + 0x8000_0000_0000_0000) then 1
    else if LongGreater(thatLsb + 0x8000_0000_0000_0000, lsb + 0x8000_0000_0000_0000) then -1
    else 0
  }

  /** compareTo(that). */
  function CompareTo(u: Ulid, that: Ulid): (c: int)
    ensures c == -1 || c == 0 || c == 1
  {
    CompareHalves(u.msb, that.msb, u.lsb, that.lsb)
  }

  /** The sign of an integer: 1, -1 or 0. */
  function Sign(x: int): (r: int)
    ensures r == 1 <==> x > 0
    ensures r == -1 <==> x < 0
    ensures r == 0 <==> x == 0
  {
    if x > 0 then 1 else if x < 0 then -1 else 0
  }

  /** Two pairs of numbers compared lexicographically, first component first. */
  function Lex(m: int, m': int, l: int, l': int): int
  {
    if m > m' then 1 else if m' > m then -1 else if l > l' then 1 else if l' > l then -1 else 0
  }

  /** With the second components below 2^64, comparing lexicographically is comparing m * 2^64 + l. */
  lemma LexSign(m: int, m': int, l: int, l': int)
    requires 0 <= l < TWO64 && 0 <= l' < TWO64
    ensures Lex(m, m', l, l') == Sign((m * 0x1_0000_0000_0000_0000 + l) - (m' * 0x1_0000_0000_0000_0000 + l'))
  {
  }

  /** The shifted signed comparisons compare the halves as unsigned numbers, lexicographically. */
  lemma CompareHalvesLex(msb: bv64, thatMsb: bv64, lsb: bv64, thatLsb: bv64)
    ensures CompareHalves(msb, thatMsb, lsb, thatLsb) == Lex(Unsigned(msb), Unsigned(thatMsb), Unsigned(lsb), Unsigned(thatLsb))
  {
    ShiftedGreater(msb, thatMsb);
    ShiftedGreater(thatMsb, msb);
    ShiftedGreater(lsb, thatLsb);
    ShiftedGreater(thatLsb, lsb);
  }

  /**
   * compareTo returns the sign of the difference of the two 128-bit values:
   * 1 when u is above that, -1 when below, 0 when they are equal.
   */
  lemma CompareToSign(u: Ulid, that: Ulid)
    ensures CompareTo(u, that) == Sign(Value(u) - Value(that))
  {
    CompareHalvesLex(u.msb, that.msb, u.lsb, that.lsb);
    UnsignedRange(u.lsb);
    UnsignedRange(that.lsb);
    LexSign(Unsigned(u.msb), Unsigned(that.msb), Unsigned(u.lsb), Unsigned(that.lsb));
  }

  /** compareTo is negative exactly when u is below that in the unsigned 128-bit order. */
  lemma CompareToLess(u: Ulid, that: Ulid)
    ensures CompareTo(u, that) < 0 <==> Less(u, that)
  {
    CompareToSign(u, that);
  }

  /** compareTo is 0 exactly when the two ULIDs are equal. */
  lemma CompareToEqual(u: Ulid, that: Ulid)
    ensures CompareTo(u, that) == 0 <==> u == that
  {
    CompareToSign(u, that);
    ValueInjective(u, that);
  }

  /** compareTo is antisymmetric. */
  lemma CompareToAntisymmetric(u: Ulid, v: Ulid)
    ensures CompareTo(u, v) == -CompareTo(v, u)
  {
    CompareToSign(u, v);
    CompareToSign(v, u);
  }

  /**
   * equals(Object): false for null, otherwise compare lsb, then msb. Only
   * other ULIDs are modelled, as `Some`.
   */
  function Equals(u: Ulid, other: Option<Ulid>): (r: bool)
    ensures r <==> other == Some(u)
  {
    if other.None? then false
    else if u.lsb != other.value.lsb then false
    else if u.msb != other.value.msb then false
    else true
  }

  /** compareTo returns 0 exactly when equals holds. */
  lemma CompareToConsistentWithEquals(u: Ulid, v: Ulid)
    ensures CompareTo(u, v) == 0 <==> Equals(u, Some(v))
  {
    CompareToEqual(u, v);
  }

  /** min(time) is at or below every ULID of that time. */
  lemma MinOfBelow(u: Ulid)
    ensures Value(MinOf(GetTime(u))) <= Value(u)
  {
    FloorAndCeiling(u.msb);
    UnsignedRange(u.lsb);
    UnsignedZeroAndOnes();
  }

  /** max(time) is at or above every ULID of that time. */
  lemma MaxOfAbove(u: Ulid)
    ensures Value(u) <= Value(MaxOf(GetTime(u)))
  {
    FloorAndCeiling(u.msb);
    UnsignedRange(u.lsb);
    UnsignedZeroAndOnes();
  }

  // ---------------------------------------------------------------------------
  // Increment
  // ---------------------------------------------------------------------------

  /** INCREMENT_OVERFLOW: the value lsb wraps around to. */
  const IncrementOverflow: bv64 := 0

  /** The new msb of increment(): carry one into msb when the new lsb has wrapped around. */
  function CarryInto(msb: bv64, newLsb: bv64): bv64
  {
    if newLsb == IncrementOverflow then msb + 1 else msb
  }

  /** increment(): add one to lsb and carry into msb when lsb wraps around. */
  function Increment(u: Ulid): (v: Ulid)
    ensures v.lsb == u.lsb + 1
    ensures v.msb != u.msb <==> u.lsb == 0xffff_ffff_ffff_ffff
  {
    Ulid(CarryInto(u.msb, u.lsb + 1), u.lsb + 1)
  }

  /** A long wraps around to 0 on adding one exactly when it is all ones. */
  lemma WrapsExactlyAtOnes(x: bv64)
    ensures x + 1 == 0 <==> x == 0xffff_ffff_ffff_ffff
  {
  }

  /** Without a carry, increment() adds one to the 128-bit value. */
  lemma IncrementNoCarry(u: Ulid)
    requires u.lsb != 0xffff_ffff_ffff_ffff
    ensures Value(Increment(u)) == Value(u) + 1
  {
    WrapsExactlyAtOnes(u.lsb);
    UnsignedIncrement(u.lsb);
  }

  /** With a carry into an msb that is not all ones, increment() still adds one. */
  lemma IncrementCarry(u: Ulid)
    requires u.lsb == 0xffff_ffff_ffff_ffff && u.msb != 0xffff_ffff_ffff_ffff
    ensures Value(Increment(u)) == Value(u) + 1
  {
    UnsignedIncrement(u.msb);
    UnsignedZeroAndOnes();
  }

  /** Incrementing MAX wraps around to MIN. */
  lemma IncrementMax()
    ensures Increment(Max) == Min
  {
  }

  /**
   * increment() adds one to the 128-bit value, wrapping around from MAX
   * (2^128 - 1) to 0.
   */
  lemma IncrementValue(u: Ulid)
    ensures Value(Increment(u)) == if u == Max then 0 else Value(u) + 1
  {
    if u.lsb != 0xffff_ffff_ffff_ffff {
      IncrementNoCarry(u);
    } else if u.msb != 0xffff_ffff_ffff_ffff {
      IncrementCarry(u);
    } else {
      IncrementMax();
      MinMaxValues();
    }
  }

  /** Every ULID but MAX is below its increment. */
  lemma IncrementIncreases(u: Ulid)
    requires u != Max
    ensures Less(u, Increment(u))
  {
    IncrementValue(u);
  }

  // ---------------------------------------------------------------------------
  // RFC 4122
  // ---------------------------------------------------------------------------

  /** The version stamp of toRfc4122(): the high nibble of byte 6 becomes 0100. */
  function StampVersion(msb: bv64): bv64
  {
    (msb & 0xffff_ffff_ffff_0fff) | 0x0000_0000_0000_4000
  }

  /** The variant stamp of toRfc4122(): the two high bits of byte 8 become 10. */
  function StampVariant(lsb: bv64): bv64
  {
    (lsb & 0x3fff_ffff_ffff_ffff) | 0x8000_0000_0000_0000
  }

  /**
   * toRfc4122(): stamp the version (section 4.1.3 of RFC 4122) into msb and
   * the variant (section 4.1.1 of RFC 4122) into lsb.
   */
  function ToRfc4122(u: Ulid): (r: Ulid)
    ensures r.msb & 0xf000 == 0x4000
    ensures r.lsb & 0xc000_0000_0000_0000 == 0x8000_0000_0000_0000
  {
    Ulid(StampVersion(u.msb), StampVariant(u.lsb))
  }

  /** The version nibble reads 4. */
  lemma VersionNibble(msb: bv64)
    ensures StampVersion(msb) & 0xf000 == 0x4000
  {
  }

  /** The version stamp changes no other bit. */
  lemma VersionKeepsOthers(msb: bv64)
    ensures StampVersion(msb) & 0xffff_ffff_ffff_0fff == msb & 0xffff_ffff_ffff_0fff
  {
  }

  /** The two variant bits read 10. */
  lemma VariantBits(lsb: bv64)
    ensures StampVariant(lsb) & 0xc000_0000_0000_0000 == 0x8000_0000_0000_0000
  {
  }

  /** The variant stamp changes no other bit. */
  lemma VariantKeepsOthers(lsb: bv64)
    ensures StampVariant(lsb) & 0x3fff_ffff_ffff_ffff == lsb & 0x3fff_ffff_ffff_ffff
  {
  }

  /** In byte form, byte 6 of toRfc4122() starts with the version nibble 4. */
  lemma Rfc4122VersionByte(u: Ulid)
    ensures ToBytes(ToRfc4122(u))[6] & 0xf0 == 0x40
  {
    VersionByte(u.msb);
  }

  /** Byte 6 of the stamped msb, most significant first, is Byte(msb >> 8). */
  lemma VersionByte(msb: bv64)
    ensures Byte(StampVersion(msb) >> 8) & 0xf0 == 0x40
  {
  }

  /** In byte form, byte 8 of toRfc4122() starts with the variant bits 10. */
  lemma Rfc4122VariantByte(u: Ulid)
    ensures ToBytes(ToRfc4122(u))[8] & 0xc0 == 0x80
  {
    VariantByte(u.lsb);
  }

  /** Byte 8 of the ULID is the top byte of the stamped lsb. */
  lemma VariantByte(lsb: bv64)
    ensures Byte(StampVariant(lsb) >> 56) & 0xc0 == 0x80
  {
  }

  /** The version stamp lies below the 48 time bits. */
  lemma VersionKeepsTime(msb: bv64)
    ensures TimeBits(StampVersion(msb)) == TimeBits(msb)
  {
  }

  /** toRfc4122() keeps the time component. */
  lemma Rfc4122KeepsTime(u: Ulid)
    ensures GetTime(ToRfc4122(u)) == GetTime(u)
  {
    VersionKeepsTime(u.msb);
  }

  /** Stamping the version twice is stamping it once. */
  lemma VersionIdempotent(msb: bv64)
    ensures StampVersion(StampVersion(msb)) == StampVersion(msb)
  {
  }

  /** Stamping the variant twice is stamping it once. */
  lemma VariantIdempotent(lsb: bv64)
    ensures StampVariant(StampVariant(lsb)) == StampVariant(lsb)
  {
  }

  /** toRfc4122() applied twice is toRfc4122() applied once. */
  lemma Rfc4122Idempotent(u: Ulid)
    ensures ToRfc4122(ToRfc4122(u)) == ToRfc4122(u)
  {
    VersionIdempotent(u.msb);
    VariantIdempotent(u.lsb);
  }
}
