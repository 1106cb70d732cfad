/**
 * Why the canonical strings of Ulid.java sort like the ULIDs themselves.
 * The 26 digits toString() writes are the 128-bit value in base 32, with
 * two leading zero bits. Both alphabets list the digit characters in
 * ascending order. So comparing two strings character by character compares
 * the two values, which is what compareTo does. This is the
 * "lexicographically sortable" promise of the ULID specification.
 */
module UlidOrder {
  import opened JavaLongs
  import opened Ulids
  import opened UlidAlphabet
  import opened UlidStrings

  // ---------------------------------------------------------------------------
  // Orders and base-32 numbers
  // ---------------------------------------------------------------------------

  /**
   * String order on strings of equal length (String.compareTo < 0): at the
   * first position where the two differ, s has the smaller character.
   */
  predicate LexLess(s: string, t: string)
  {
    exists k :: 0 <= k < |s| && k < |t| && s[..k] == t[..k] && s[k] < t[k]
  }

  /** The same order on sequences of digit values. */
  predicate DigitsLess(a: seq<int>, b: seq<int>)
  {
    exists k :: 0 <= k < |a| && k < |b| && a[..k] == b[..k] && a[k] < b[k]
  }

  /** Every entry is a base-32 digit. */
  predicate IsBase32(v: seq<int>)
  {
    forall i :: 0 <= i < |v| ==> 0 <= v[i] < 32
  }

  /** Base-32 digits, most significant first, read as one number. */
  function Base32(v: seq<int>): int
  {
    if |v| == 0 then 0 else Base32(v[..|v| - 1]) * 32 + v[|v| - 1]
  }

  function Pow32(n: nat): int
  {
    if n == 0 then 1 else 32 * Pow32(n - 1)
  }

  /** Digits held in longs, as numbers. */
  function DigitInts(d: seq<bv64>): (v: seq<int>)
    ensures |v| == |d|
  {
    seq(|d|, i requires 0 <= i < |d| => d[i] as int)
  }

  /** Eight base-32 digits, most significant first, as one number. */
  function EightDigits(a0: int, a1: int, a2: int, a3: int, a4: int, a5: int, a6: int, a7: int): int
  {
    ((((((a0 * 32 + a1) * 32 + a2) * 32 + a3) * 32 + a4) * 32 + a5) * 32 + a6) * 32 + a7
  }

  /** Characters in strictly ascending order. */
  predicate Ascending(alphabet: string)
  {
    forall i, j :: 0 <= i < j < |alphabet| ==> alphabet[i] < alphabet[j]
  }

  // ---------------------------------------------------------------------------
  // Digit order is numeric order
  // ---------------------------------------------------------------------------

  /** Comparing all digits is comparing all but the last, and the last only on a tie. */
  lemma DigitsLessStep(a: seq<int>, b: seq<int>)
    requires |a| == |b| > 0
    ensures var n := |a| - 1;
      DigitsLess(a, b) <==> DigitsLess(a[..n], b[..n]) || (a[..n] == b[..n] && a[n] < b[n])
  {
    var n := |a| - 1;
    if DigitsLess(a, b) {
      var k :| 0 <= k < |a| && k < |b| && a[..k] == b[..k] && a[k] < b[k];
      if k < n {
        assert a[..n][..k] == a[..k] && b[..n][..k] == b[..k];
        assert a[..n][k] == a[k] && b[..n][k] == b[k];
      }
    }
    if DigitsLess(a[..n], b[..n]) {
      var k :| 0 <= k < n && a[..n][..k] == b[..n][..k] && a[..n][k] < b[..n][k];
      assert a[..n][..k] == a[..k] && b[..n][..k] == b[..k];
    }
    if a[..n] == b[..n] && a[n] < b[n] {
      assert 0 <= n < |a| && a[..n] == b[..n] && a[n] < b[n];
    }
  }

  /** One more base-32 digit: the numbers compare as the prefixes do, and on a tie as the digits do. */
  lemma PlaceValue(p: int, q: int, x: int, y: int)
    requires 0 <= x < 32 && 0 <= y < 32
    ensures p * 32 + x == q * 32 + y <==> p == q && x == y
    ensures p * 32 + x < q * 32 + y <==> p < q || (p == q && x < y)
  {
    if p < q {
      assert p * 32 + x < (p + 1) * 32 <= q * 32 + y;
    } else if q < p {
      assert q * 32 + y < (q + 1) * 32 <= p * 32 + x;
    }
  }

  /** Two sequences of equal length are equal when all but the last are and the last are. */
  lemma SnocEqual(a: seq<int>, b: seq<int>)
    requires |a| == |b| > 0
    ensures a == b <==> a[..|a| - 1] == b[..|b| - 1] && a[|a| - 1] == b[|b| - 1]
  {
    var n := |a| - 1;
    assert a == a[..n] + [a[n]] && b == b[..n] + [b[n]];
  }

  /**
   * Digit sequences of equal length compare as the numbers they stand for:
   * equal exactly when the digits are, smaller exactly when the digits
   * come first in dictionary order.
   */
  lemma {:induction false} DigitsOrder(a: seq<int>, b: seq<int>)
    requires |a| == |b| && IsBase32(a) && IsBase32(b)
    ensures Base32(a) == Base32(b) <==> a == b
    ensures Base32(a) < Base32(b) <==> DigitsLess(a, b)
    decreases |a|
  {
    if |a| > 0 {
      var n := |a| - 1;
      assert IsBase32(a[..n]) && IsBase32(b[..n]);
      DigitsOrder(a[..n], b[..n]);
      DigitsLessStep(a, b);
      SnocEqual(a, b);
      PlaceValue(Base32(a[..n]), Base32(b[..n]), a[n], b[n]);
    }
  }

  /** Appending digits shifts the number read so far by one place per digit. */
  lemma {:induction false} Base32Append(a: seq<int>, b: seq<int>)
    ensures Base32(a + b) == Base32(a) * Pow32(|b|) + Base32(b)
    decreases |b|
  {
    if |b| == 0 {
      assert a + b == a;
    } else {
      var n := |b| - 1;
      assert (a + b)[..|a + b| - 1] == a + b[..n];
      Base32Append(a, b[..n]);
      calc {
        Base32(a + b);
        Base32(a + b[..n]) * 32 + b[n];
        (Base32(a) * Pow32(n) + Base32(b[..n])) * 32 + b[n];
        Base32(a) * (32 * Pow32(n)) + (Base32(b[..n]) * 32 + b[n]);
      }
    }
  }

  lemma Pow32Values()
    ensures Pow32(8) == 0x100_0000_0000
  {
  }

  /** One more digit at the end: the number so far moves up one place. */
  lemma Base32Snoc(v: seq<int>, x: int)
    ensures Base32(v + [x]) == Base32(v) * 32 + x
  {
    assert (v + [x])[..|v|] == v;
  }

  lemma Base32Two(a0: int, a1: int)
    ensures Base32([a0, a1]) == a0 * 32 + a1
  {
    Base32Snoc([], a0);
    assert [] + [a0] == [a0];
    Base32Snoc([a0], a1);
    assert [a0] + [a1] == [a0, a1];
  }

  lemma Base32Eight(a0: int, a1: int, a2: int, a3: int, a4: int, a5: int, a6: int, a7: int)
    ensures Base32([a0, a1, a2, a3, a4, a5, a6, a7]) == EightDigits(a0, a1, a2, a3, a4, a5, a6, a7)
  {
    Base32Two(a0, a1);
    Base32Snoc([a0, a1], a2);
    assert [a0, a1] + [a2] == [a0, a1, a2];
    Base32Snoc([a0, a1, a2], a3);
    assert [a0, a1, a2] + [a3] == [a0, a1, a2, a3];
    Base32Snoc([a0, a1, a2, a3], a4);
    assert [a0, a1, a2, a3] + [a4] == [a0, a1, a2, a3, a4];
    Base32Snoc([a0, a1, a2, a3, a4], a5);
    assert [a0, a1, a2, a3, a4] + [a5] == [a0, a1, a2, a3, a4, a5];
    Base32Snoc([a0, a1, a2, a3, a4, a5], a6);
    assert [a0, a1, a2, a3, a4, a5] + [a6] == [a0, a1, a2, a3, a4, a5, a6];
    Base32Snoc([a0, a1, a2, a3, a4, a5, a6], a7);
    assert [a0, a1, a2, a3, a4, a5, a6] + [a7] == [a0, a1, a2, a3, a4, a5, a6, a7];
  }

  lemma DigitIntsAppend(a: seq<bv64>, b: seq<bv64>)
    ensures DigitInts(a + b) == DigitInts(a) + DigitInts(b)
  {
  }

  // ---------------------------------------------------------------------------
  // Forty bits as five bytes and as eight digits
  // ---------------------------------------------------------------------------

  /** The low five bytes of a long, most significant first. */
  lemma LowFiveBytes(r: bv64)
    ensures LowBytes(r, 5) ==
      (((ByteValue(Byte(r >> 32)) * 256 + ByteValue(Byte(r >> 24))) * 256 + ByteValue(Byte(r >> 16))) * 256
        + ByteValue(Byte(r >> 8))) * 256 + ByteValue(Byte(r))
  {
    ShiftsCompose(r);
    assert LowBytes(r, 5) == LowBytes(r >> 8, 4) * 256 + ByteValue(Byte(r));
    assert LowBytes(r >> 8, 4) == LowBytes(r >> 16, 3) * 256 + ByteValue(Byte(r >> 8));
    assert LowBytes(r >> 16, 3) == LowBytes(r >> 24, 2) * 256 + ByteValue(Byte(r >> 16));
    assert LowBytes(r >> 24, 2) == LowBytes(r >> 32, 1) * 256 + ByteValue(Byte(r >> 24));
    assert LowBytes(r >> 32, 1) == LowBytes(r >> 40, 0) * 256 + ByteValue(Byte(r >> 32));
  }

  lemma ShiftsCompose(r: bv64)
    ensures (r >> 8) >> 8 == r >> 16 && (r >> 16) >> 8 == r >> 24
    ensures (r >> 24) >> 8 == r >> 32 && (r >> 32) >> 8 == r >> 40
  {
  }

  /** The first four digits of a 40-bit chunk, taken from the bits of its top three bytes. */
  lemma ChunkDigitsHigh(r: bv64)
    ensures RandomDigits(r)[0] as int == (Byte(r >> 32) >> 3) as int
    ensures RandomDigits(r)[1] as int == ((Byte(r >> 32) & 7) as int) * 4 + (Byte(r >> 24) >> 6) as int
    ensures RandomDigits(r)[2] as int == ((Byte(r >> 24) >> 1) & 31) as int
    ensures RandomDigits(r)[3] as int == ((Byte(r >> 24) & 1) as int) * 16 + (Byte(r >> 16) >> 4) as int
  {
  }

  /** The last four digits of a 40-bit chunk, taken from the bits of its low three bytes. */
  lemma ChunkDigitsLow(r: bv64)
    ensures RandomDigits(r)[4] as int == ((Byte(r >> 16) & 15) as int) * 2 + (Byte(r >> 8) >> 7) as int
    ensures RandomDigits(r)[5] as int == ((Byte(r >> 8) >> 2) & 31) as int
    ensures RandomDigits(r)[6] as int == ((Byte(r >> 8) & 3) as int) * 8 + (Byte(r) >> 5) as int
    ensures RandomDigits(r)[7] as int == (Byte(r) & 31) as int
  {
  }

  /** The top two bytes of a chunk, each the sum of the pieces the digit boundaries cut it into. */
  lemma BytePiecesHigh(r: bv64)
    ensures ByteValue(Byte(r >> 32)) == ((Byte(r >> 32) >> 3) as int) * 8 + (Byte(r >> 32) & 7) as int
    ensures ByteValue(Byte(r >> 24)) ==
      ((Byte(r >> 24) >> 6) as int) * 64 + (((Byte(r >> 24) >> 1) & 31) as int) * 2 + (Byte(r >> 24) & 1) as int
  {
  }

  /** The low three bytes of a chunk, each the sum of its pieces. */
  lemma BytePiecesLow(r: bv64)
    ensures ByteValue(Byte(r >> 16)) == ((Byte(r >> 16) >> 4) as int) * 16 + (Byte(r >> 16) & 15) as int
    ensures ByteValue(Byte(r >> 8)) ==
      ((Byte(r >> 8) >> 7) as int) * 128 + (((Byte(r >> 8) >> 2) & 31) as int) * 4 + (Byte(r >> 8) & 3) as int
    ensures ByteValue(Byte(r)) == ((Byte(r) >> 5) as int) * 32 + (Byte(r) & 31) as int
  {
  }

  /**
   * Eight digits made of the pieces of five bytes are the same number as
   * the bytes: h4 and l4 are the top five and low three bits of byte 4; h3,
   * m3 and l3 the top two, middle five and low bit of byte 3; h2 and l2 the
   * halves of byte 2; h1, m1 and l1 the top bit, middle five and low two bits
   * of byte 1; h0 and l0 the top three and low five bits of byte 0.
   */
  lemma RegroupChunk(h4: int, l4: int, h3: int, m3: int, l3: int, h2: int, l2: int,
                     h1: int, m1: int, l1: int, h0: int, l0: int)
    ensures EightDigits(h4, l4 * 4 + h3, m3, l3 * 16 + h2, l2 * 2 + h1, m1, l1 * 8 + h0, l0)
      == ((((h4 * 8 + l4) * 256 + (h3 * 64 + m3 * 2 + l3)) * 256 + (h2 * 16 + l2)) * 256
          + (h1 * 128 + m1 * 4 + l1)) * 256 + (h0 * 32 + l0)
  {
  }

  /** Eight digit values held in longs, as a sequence of numbers. */
  lemma DigitIntsEight(d: seq<bv64>)
    requires |d| == 8
    ensures DigitInts(d) == [d[0] as int, d[1] as int, d[2] as int, d[3] as int, d[4] as int, d[5] as int, d[6] as int, d[7] as int]
  {
  }

  /** The eight digits of a chunk, as a number, in terms of the digits themselves. */
  lemma ChunkDigitsNumber(r: bv64)
    ensures Base32(DigitInts(RandomDigits(r))) ==
      EightDigits(RandomDigits(r)[0] as int, RandomDigits(r)[1] as int, RandomDigits(r)[2] as int,
                  RandomDigits(r)[3] as int, RandomDigits(r)[4] as int, RandomDigits(r)[5] as int,
                  RandomDigits(r)[6] as int, RandomDigits(r)[7] as int)
  {
    var d := RandomDigits(r);
    DigitIntsEight(d);
    Base32Eight(d[0] as int, d[1] as int, d[2] as int, d[3] as int, d[4] as int, d[5] as int, d[6] as int, d[7] as int);
  }

  /** The same number, in terms of the pieces of the chunk's five bytes. */
  lemma ChunkDigitsPieces(r: bv64)
    ensures EightDigits(RandomDigits(r)[0] as int, RandomDigits(r)[1] as int, RandomDigits(r)[2] as int,
                        RandomDigits(r)[3] as int, RandomDigits(r)[4] as int, RandomDigits(r)[5] as int,
                        RandomDigits(r)[6] as int, RandomDigits(r)[7] as int)
      == EightDigits((Byte(r >> 32) >> 3) as int, ((Byte(r >> 32) & 7) as int) * 4 + (Byte(r >> 24) >> 6) as int,
                  ((Byte(r >> 24) >> 1) & 31) as int, ((Byte(r >> 24) & 1) as int) * 16 + (Byte(r >> 16) >> 4) as int,
                  ((Byte(r >> 16) & 15) as int) * 2 + (Byte(r >> 8) >> 7) as int, ((Byte(r >> 8) >> 2) & 31) as int,
                  ((Byte(r >> 8) & 3) as int) * 8 + (Byte(r) >> 5) as int, (Byte(r) & 31) as int)
  {
    ChunkDigitsHigh(r);
    ChunkDigitsLow(r);
  }

  /** The five low bytes of a chunk, as a number, in terms of their pieces. */
  lemma ChunkBytesPieces(r: bv64)
    ensures LowBytes(r, 5) == EightDigits((Byte(r >> 32) >> 3) as int, ((Byte(r >> 32) & 7) as int) * 4 + (Byte(r >> 24) >> 6) as int,
                  ((Byte(r >> 24) >> 1) & 31) as int, ((Byte(r >> 24) & 1) as int) * 16 + (Byte(r >> 16) >> 4) as int,
                  ((Byte(r >> 16) & 15) as int) * 2 + (Byte(r >> 8) >> 7) as int, ((Byte(r >> 8) >> 2) & 31) as int,
                  ((Byte(r >> 8) & 3) as int) * 8 + (Byte(r) >> 5) as int, (Byte(r) & 31) as int)
  {
    LowFiveBytes(r);
    BytePiecesHigh(r);
    BytePiecesLow(r);
    RegroupChunk((Byte(r >> 32) >> 3) as int, (Byte(r >> 32) & 7) as int,
                 (Byte(r >> 24) >> 6) as int, ((Byte(r >> 24) >> 1) & 31) as int, (Byte(r >> 24) & 1) as int,
                 (Byte(r >> 16) >> 4) as int, (Byte(r >> 16) & 15) as int,
                 (Byte(r >> 8) >> 7) as int, ((Byte(r >> 8) >> 2) & 31) as int, (Byte(r >> 8) & 3) as int,
                 (Byte(r) >> 5) as int, (Byte(r) & 31) as int);
  }

  /** The eight digits of a 40-bit chunk read as a number are its five low bytes read as one. */
  lemma ChunkValue(r: bv64)
    ensures Base32(DigitInts(RandomDigits(r))) == LowBytes(r, 5)
  {
    ChunkDigitsNumber(r);
    ChunkDigitsPieces(r);
    ChunkBytesPieces(r);
  }

  // ---------------------------------------------------------------------------
  // The 26 digits are the value
  // ---------------------------------------------------------------------------

  /** The ten time digits are two digits for the top byte of a 48-bit time, then a 40-bit chunk. */
  lemma TimeDigitsSplit(time: bv64)
    ensures TimeDigits(time) == [(time >> 45) & 31, (time >> 40) & 31] + RandomDigits(time)
  {
  }

  /** The top two time digits of a 48-bit time spell its top byte. */
  lemma TopTimeByte(time: bv64)
    requires time <= MaxTime
    ensures ((time >> 45) & 31) as int * 32 + ((time >> 40) & 31) as int == ByteValue(Byte(time >> 40))
  {
  }

  /** The ten time digits of a 48-bit time read as its six bytes. */
  lemma TimeValue(time: bv64)
    requires time <= MaxTime
    ensures Base32(DigitInts(TimeDigits(time))) == ByteValue(Byte(time >> 40)) * 0x100_0000_0000 + LowBytes(time, 5)
  {
    var top := [(time >> 45) & 31, (time >> 40) & 31];
    TimeDigitsSplit(time);
    DigitIntsAppend(top, RandomDigits(time));
    assert DigitInts(top) == [((time >> 45) & 31) as int, ((time >> 40) & 31) as int];
    Base32Append(DigitInts(top), DigitInts(RandomDigits(time)));
    Pow32Values();
    Base32Two(((time >> 45) & 31) as int, ((time >> 40) & 31) as int);
    TopTimeByte(time);
    ChunkValue(time);
  }

  /** The bytes of the time are bytes 7 to 2 of msb. */
  lemma TimeBytes(msb: bv64)
    ensures Byte((msb >> 16) >> 40) == Byte(msb >> 56)
    ensures Byte((msb >> 16) >> 32) == Byte(msb >> 48)
    ensures Byte((msb >> 16) >> 24) == Byte(msb >> 40)
    ensures Byte((msb >> 16) >> 16) == Byte(msb >> 32)
    ensures Byte((msb >> 16) >> 8) == Byte(msb >> 24)
  {
  }

  /** The bytes of the first random half are bytes 1 and 0 of msb and 7 to 5 of lsb. */
  lemma Random0Bytes(u: Ulid)
    ensures Byte(Random0Part(u) >> 32) == Byte(u.msb >> 8)
    ensures Byte(Random0Part(u) >> 24) == Byte(u.msb)
    ensures Byte(Random0Part(u) >> 16) == Byte(u.lsb >> 56)
    ensures Byte(Random0Part(u) >> 8) == Byte(u.lsb >> 48)
    ensures Byte(Random0Part(u)) == Byte(u.lsb >> 40)
  {
  }

  /** The bytes of the second random half are bytes 4 to 0 of lsb. */
  lemma Random1Bytes(u: Ulid)
    ensures Byte(Random1Part(u) >> 32) == Byte(u.lsb >> 32)
    ensures Byte(Random1Part(u) >> 24) == Byte(u.lsb >> 24)
    ensures Byte(Random1Part(u) >> 16) == Byte(u.lsb >> 16)
    ensures Byte(Random1Part(u) >> 8) == Byte(u.lsb >> 8)
    ensures Byte(Random1Part(u)) == Byte(u.lsb)
  {
  }

  /** Sixteen bytes read as two longs are the same number as read as 6 + 5 + 5 bytes. */
  lemma RegroupBytes(m7: int, m6: int, m5: int, m4: int, m3: int, m2: int, m1: int, m0: int,
                     l7: int, l6: int, l5: int, l4: int, l3: int, l2: int, l1: int, l0: int)
    ensures Horner(m7, m6, m5, m4, m3, m2, m1, m0) * 0x1_0000_0000_0000_0000 + Horner(l7, l6, l5, l4, l3, l2, l1, l0)
      == (m7 * 0x100_0000_0000 + ((((m6 * 256 + m5) * 256 + m4) * 256 + m3) * 256 + m2)) * 0x1_0000_0000_0000_0000_0000
         + ((((m1 * 256 + m0) * 256 + l7) * 256 + l6) * 256 + l5) * 0x100_0000_0000
         + ((((l4 * 256 + l3) * 256 + l2) * 256 + l1) * 256 + l0)
  {
  }

  /** The top 48 bits of a long read as six bytes are its bytes 7 to 2. */
  lemma TopSixBytes(msb: bv64)
    ensures ByteValue(Byte((msb >> 16) >> 40)) * 0x100_0000_0000 + LowBytes(msb >> 16, 5) ==
      ByteValue(Byte(msb >> 56)) * 0x100_0000_0000
      + ((((ByteValue(Byte(msb >> 48)) * 256 + ByteValue(Byte(msb >> 40))) * 256 + ByteValue(Byte(msb >> 32))) * 256
          + ByteValue(Byte(msb >> 24))) * 256 + ByteValue(Byte(msb >> 16)))
  {
    TimeBytes(msb);
    LowFiveBytes(msb >> 16);
  }

  /** The time read as six bytes: bytes 7 to 2 of msb. */
  lemma TimePartValue(u: Ulid)
    ensures ByteValue(Byte(GetTime(u) >> 40)) * 0x100_0000_0000 + LowBytes(GetTime(u), 5) ==
      ByteValue(Byte(u.msb >> 56)) * 0x100_0000_0000
      + ((((ByteValue(Byte(u.msb >> 48)) * 256 + ByteValue(Byte(u.msb >> 40))) * 256 + ByteValue(Byte(u.msb >> 32))) * 256
          + ByteValue(Byte(u.msb >> 24))) * 256 + ByteValue(Byte(u.msb >> 16)))
  {
    TopSixBytes(u.msb);
  }

  /** The first random half read as five bytes: bytes 1 and 0 of msb, 7 to 5 of lsb. */
  lemma Random0PartValue(u: Ulid)
    ensures LowBytes(Random0Part(u), 5) ==
      (((ByteValue(Byte(u.msb >> 8)) * 256 + ByteValue(Byte(u.msb))) * 256 + ByteValue(Byte(u.lsb >> 56))) * 256
        + ByteValue(Byte(u.lsb >> 48))) * 256 + ByteValue(Byte(u.lsb >> 40))
  {
    Random0Bytes(u);
    LowFiveBytes(Random0Part(u));
  }

  /** The second random half read as five bytes: bytes 4 to 0 of lsb. */
  lemma Random1PartValue(u: Ulid)
    ensures LowBytes(Random1Part(u), 5) ==
      (((ByteValue(Byte(u.lsb >> 32)) * 256 + ByteValue(Byte(u.lsb >> 24))) * 256 + ByteValue(Byte(u.lsb >> 16))) * 256
        + ByteValue(Byte(u.lsb >> 8))) * 256 + ByteValue(Byte(u.lsb))
  {
    Random1Bytes(u);
    LowFiveBytes(Random1Part(u));
  }

  /** The value of a ULID from its time and its two 40-bit random halves. */
  lemma ValueOfParts(u: Ulid)
    ensures Value(u) ==
      (ByteValue(Byte(GetTime(u) >> 40)) * 0x100_0000_0000 + LowBytes(GetTime(u), 5)) * 0x1_0000_0000_0000_0000_0000
      + LowBytes(Random0Part(u), 5) * 0x100_0000_0000 + LowBytes(Random1Part(u), 5)
  {
    UnsignedHorner(u.msb);
    UnsignedHorner(u.lsb);
    TimePartValue(u);
    Random0PartValue(u);
    Random1PartValue(u);
    RegroupBytes(ByteValue(Byte(u.msb >> 56)), ByteValue(Byte(u.msb >> 48)), ByteValue(Byte(u.msb >> 40)),
                 ByteValue(Byte(u.msb >> 32)), ByteValue(Byte(u.msb >> 24)), ByteValue(Byte(u.msb >> 16)),
                 ByteValue(Byte(u.msb >> 8)), ByteValue(Byte(u.msb)),
                 ByteValue(Byte(u.lsb >> 56)), ByteValue(Byte(u.lsb >> 48)), ByteValue(Byte(u.lsb >> 40)),
                 ByteValue(Byte(u.lsb >> 32)), ByteValue(Byte(u.lsb >> 24)), ByteValue(Byte(u.lsb >> 16)),
                 ByteValue(Byte(u.lsb >> 8)), ByteValue(Byte(u.lsb)));
  }

  /** The 26 digit values: the ten time digits, then the two chunks of eight. */
  lemma DigitIntsParts(u: Ulid)
    ensures DigitInts(Digits(u)) ==
      DigitInts(TimeDigits(GetTime(u))) + DigitInts(RandomDigits(Random0Part(u))) + DigitInts(RandomDigits(Random1Part(u)))
  {
    var t, r0, r1 := TimeDigits(GetTime(u)), RandomDigits(Random0Part(u)), RandomDigits(Random1Part(u));
    DigitIntsAppend(t + r0, r1);
    DigitIntsAppend(t, r0);
  }

  /** The 26 digits read as a number: the ten time digits, then the two chunks of eight. */
  lemma DigitsParts(u: Ulid)
    ensures Base32(DigitInts(Digits(u))) ==
      (Base32(DigitInts(TimeDigits(GetTime(u)))) * 0x100_0000_0000
       + Base32(DigitInts(RandomDigits(Random0Part(u))))) * 0x100_0000_0000
      + Base32(DigitInts(RandomDigits(Random1Part(u))))
  {
    var t, r0, r1 := DigitInts(TimeDigits(GetTime(u))), DigitInts(RandomDigits(Random0Part(u))), DigitInts(RandomDigits(Random1Part(u)));
    DigitIntsParts(u);
    Base32Append(t + r0, r1);
    Base32Append(t, r0);
    Pow32Values();
  }

  /** The 26 digits of toString(), read in base 32, are the 128-bit value of the ULID. */
  lemma DigitsValue(u: Ulid)
    ensures Base32(DigitInts(Digits(u))) == Value(u)
  {
    DigitsParts(u);
    TimeValue(GetTime(u));
    ChunkValue(Random0Part(u));
    ChunkValue(Random1Part(u));
    ValueOfParts(u);
  }

  /** The digit values of every ULID are base-32 digits. */
  lemma DigitIntsBase32(u: Ulid)
    ensures IsBase32(DigitInts(Digits(u)))
  {
    DigitsWellFormed(u);
  }

  // ---------------------------------------------------------------------------
  // String order is ULID order
  // ---------------------------------------------------------------------------

  /** Character i of a spelling is the alphabet's character for digit i. */
  lemma SpelledAt(u: Ulid, alphabet: string, i: int)
    requires |alphabet| == 32 && 0 <= i < UlidChars
    ensures 0 <= DigitInts(Digits(u))[i] < 32
    ensures ToStringWith(u, alphabet)[i] == alphabet[DigitInts(Digits(u))[i]]
  {
    DigitsWellFormed(u);
  }

  /** In an ascending alphabet, two spelled digits are equal, or ordered, exactly as the digits are. */
  lemma SpelledPair(u: Ulid, v: Ulid, alphabet: string, i: int)
    requires |alphabet| == 32 && Ascending(alphabet) && 0 <= i < UlidChars
    ensures var s, t := ToStringWith(u, alphabet), ToStringWith(v, alphabet);
      var a, b := DigitInts(Digits(u)), DigitInts(Digits(v));
      (s[i] == t[i] <==> a[i] == b[i]) && (s[i] < t[i] <==> a[i] < b[i])
  {
    SpelledAt(u, alphabet, i);
    SpelledAt(v, alphabet, i);
  }

  /** Equal spellings up to position k mean equal digits up to k, and back. */
  lemma SpelledPrefix(u: Ulid, v: Ulid, alphabet: string, k: int)
    requires |alphabet| == 32 && Ascending(alphabet) && 0 <= k <= UlidChars
    ensures ToStringWith(u, alphabet)[..k] == ToStringWith(v, alphabet)[..k]
      <==> DigitInts(Digits(u))[..k] == DigitInts(Digits(v))[..k]
  {
    var s, t := ToStringWith(u, alphabet), ToStringWith(v, alphabet);
    var a, b := DigitInts(Digits(u)), DigitInts(Digits(v));
    forall i | 0 <= i < k
      ensures s[i] == t[i] <==> a[i] == b[i]
    {
      SpelledPair(u, v, alphabet, i);
    }
    if s[..k] == t[..k] {
      assert forall i :: 0 <= i < k ==> a[i] == b[i] by {
        forall i | 0 <= i < k ensures a[i] == b[i] {
          assert s[..k][i] == t[..k][i];
        }
      }
    }
    if a[..k] == b[..k] {
      assert forall i :: 0 <= i < k ==> s[i] == t[i] by {
        forall i | 0 <= i < k ensures s[i] == t[i] {
          assert a[..k][i] == b[..k][i];
        }
      }
    }
  }

  /** In an ascending alphabet, spelled digits compare as the digits do. */
  lemma SpellingOrder(u: Ulid, v: Ulid, alphabet: string)
    requires |alphabet| == 32 && Ascending(alphabet)
    ensures LexLess(ToStringWith(u, alphabet), ToStringWith(v, alphabet))
      <==> DigitsLess(DigitInts(Digits(u)), DigitInts(Digits(v)))
  {
    var s, t := ToStringWith(u, alphabet), ToStringWith(v, alphabet);
    var a, b := DigitInts(Digits(u)), DigitInts(Digits(v));
    if LexLess(s, t) {
      var k :| 0 <= k < |s| && k < |t| && s[..k] == t[..k] && s[k] < t[k];
      SpelledPrefix(u, v, alphabet, k);
      SpelledPair(u, v, alphabet, k);
      assert 0 <= k < |a| && k < |b| && a[..k] == b[..k] && a[k] < b[k];
    }
    if DigitsLess(a, b) {
      var k :| 0 <= k < |a| && k < |b| && a[..k] == b[..k] && a[k] < b[k];
      SpelledPrefix(u, v, alphabet, k);
      SpelledPair(u, v, alphabet, k);
      assert 0 <= k < |s| && k < |t| && s[..k] == t[..k] && s[k] < t[k];
    }
  }

  /** Spelled ULIDs compare as the ULIDs' values, in any ascending alphabet. */
  lemma SpellingSortsByValue(u: Ulid, v: Ulid, alphabet: string)
    requires |alphabet| == 32 && Ascending(alphabet)
    ensures LexLess(ToStringWith(u, alphabet), ToStringWith(v, alphabet)) <==> Less(u, v)
  {
    DigitsValue(u);
    DigitsValue(v);
    DigitIntsBase32(u);
    DigitIntsBase32(v);
    DigitsOrder(DigitInts(Digits(u)), DigitInts(Digits(v)));
    SpellingOrder(u, v, alphabet);
  }

  /**
   * Comparing the canonical strings of two ULIDs as strings orders them
   * exactly as compareTo does.
   */
  lemma StringOrder(u: Ulid, v: Ulid)
    ensures CompareTo(u, v) < 0 <==> LexLess(ToString(u), ToString(v))
  {
    UpperDecodes();
    UpperAscending();
    SpellingSortsByValue(u, v, Upper);
    CompareToLess(u, v);
  }

  /** The same holds for the lower-case strings of toLowerCase(). */
  lemma LowerCaseOrder(u: Ulid, v: Ulid)
    ensures CompareTo(u, v) < 0 <==> LexLess(ToLowerCase(u), ToLowerCase(v))
  {
    LowerDecodes();
    LowerAscending();
    SpellingSortsByValue(u, v, Lower);
    CompareToLess(u, v);
  }
}
