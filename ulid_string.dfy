/**
 * The canonical string form of Ulid.java: 26 Crockford Base 32 characters,
 * 10 for the 48-bit time and 16 for the 80-bit random component, as in the
 * "Encoding" section of the ULID specification. Decoding reads letters in
 * either case and the aliases O (as 0) and I, L (as 1).
 */
module UlidStrings {
  import opened Wrappers
  import opened UlidAlphabet
  import opened Ulids
  import opened JavaLongs

  // ---------------------------------------------------------------------------
  // Validity
  // ---------------------------------------------------------------------------

  /**
   * isValid / isValidCharArray: not null, 26 characters, each below 256 and
   * with a digit value, and the first one with both bits of 0b11000 clear
   * (so the 50 bits the time characters carry fit in 48).
   */
  predicate IsValid(chars: Option<seq<char>>)
  {
    && chars.Some?
    && |chars.value| == UlidChars
    && (forall i :: 0 <= i < UlidChars ==> AcceptedChar(chars.value[i]))
    && (AlphabetValue(chars.value[0]) as bv8) & 0x18 == 0
  }

  /** A character the loop of isValidCharArray lets through: 8-bit, with a digit value. */
  predicate AcceptedChar(c: char)
  {
    c as int < TableSize && AlphabetValue(c) != -1
  }

  /**
   * isValidCharArray as the Java code runs it: a loop over the characters
   * that looks each one up in the ALPHABET_VALUES table and stops at the
   * first one that is out of range or not a digit, then the first-character
   * bit test.
   */
  method IsValidCharArray(chars: Option<seq<char>>, alphabetValues: array<int>) returns (ok: bool)
    requires alphabetValues.Length == TableSize
    requires forall c :: 0 <= c < TableSize ==> alphabetValues[c] == AlphabetValue(c as char)
    ensures ok == IsValid(chars)
  {
    if chars.None? || |chars.value| != UlidChars {
      return false;  // null or wrong size
    }
    var s := chars.value;
    for i := 0 to |s|
      invariant forall j :: 0 <= j < i ==> AcceptedChar(s[j])
    {
      if s[i] as int >= TableSize {
        return false;  // multibyte character: the table lookup is out of bounds
      }
      if alphabetValues[s[i] as int] == -1 {
        return false;  // not a digit
      }
    }
    if (alphabetValues[s[0] as int] as bv8) & 0x18 != 0 {
      return false;  // time overflow
    }
    return true;
  }

  /** A digit value below 32 passes the first-character test iff it is below 8. */
  lemma FirstDigitTest(v: int)
    requires 0 <= v < 32
    ensures (v as bv8) & 0x18 == 0 <==> v < 8
  {
  }

  /** The accepted characters are the two alphabets and the aliases. */
  lemma AcceptedCharIff(c: char)
    ensures AcceptedChar(c) <==> c in Upper || c in Lower || c in Aliases
  {
    UpperDecodes();
    LowerDecodes();
    AlphabetValueCovered();
  }

  /** An accepted first character passes the time-overflow test iff it is one of 0..7 or an alias. */
  lemma FirstCharIff(c: char)
    requires AcceptedChar(c)
    ensures (AlphabetValue(c) as bv8) & 0x18 == 0 <==> c in Upper[..8] || c in Aliases
  {
    FirstDigitTest(AlphabetValue(c));
    LowDigitChars(c);
  }

  /** The characters with a digit value below 8 are 0..7 and the aliases. */
  lemma LowDigitChars(c: char)
    ensures 0 <= AlphabetValue(c) < 8 <==> c in Upper[..8] || c in Aliases
  {
    assert Upper[..8] == "01234567";
  }

  /**
   * isValid holds exactly of the 26-character strings made of alphabet
   * characters (either case) and aliases whose first character is one of
   * 0..7 or an alias.
   */
  lemma {:induction false} IsValidIff(s: Option<string>)
    ensures IsValid(s) <==>
      && s.Some?
      && |s.value| == UlidChars
      && (forall i :: 0 <= i < UlidChars ==>
            s.value[i] in Upper || s.value[i] in Lower || s.value[i] in Aliases)
      && (s.value[0] in Upper[..8] || s.value[0] in Aliases)
  {
    if s.Some? && |s.value| == UlidChars {
      forall i | 0 <= i < UlidChars
        ensures AcceptedChar(s.value[i]) <==> s.value[i] in Upper || s.value[i] in Lower || s.value[i] in Aliases
      {
        AcceptedCharIff(s.value[i]);
      }
      if AcceptedChar(s.value[0]) {
        FirstCharIff(s.value[0]);
      }
    }
  }

  /** toCharArray(String): the characters, or an exception if not valid. */
  function ToCharArray(s: Option<string>): (r: Result<seq<char>, Error>)
    ensures r.Ok? <==> IsValid(s)
    ensures r.Ok? ==> r == Ok(s.value)
    ensures r.Err? ==> r.error == InvalidString
  {
    if IsValid(s) then Ok(s.value) else Err(InvalidString)
  }

  // ---------------------------------------------------------------------------
  // Digits
  // ---------------------------------------------------------------------------

  /** The ten 5-bit digits of a time, most significant first: five bits at a time from the 50 low ones. */
  function TimeDigits(time: bv64): (d: seq<bv64>)
    ensures |d| == 10
  {
    [(time >> 45) & 31, (time >> 40) & 31, (time >> 35) & 31, (time >> 30) & 31, (time >> 25) & 31,
     (time >> 20) & 31, (time >> 15) & 31, (time >> 10) & 31, (time >> 5) & 31, time & 31]
  }

  /** The eight 5-bit digits of a 40-bit half of the random component, most significant first. */
  function RandomDigits(random: bv64): (d: seq<bv64>)
    ensures |d| == 8
  {
    [(random >> 35) & 31, (random >> 30) & 31, (random >> 25) & 31, (random >> 20) & 31,
     (random >> 15) & 31, (random >> 10) & 31, (random >> 5) & 31, random & 31]
  }

  /** The time ten digits stand for. */
  function TimeOf(d: seq<bv64>): bv64
    requires |d| == 10
  {
    (d[0] << 45) | (d[1] << 40) | (d[2] << 35) | (d[3] << 30) | (d[4] << 25)
    | (d[5] << 20) | (d[6] << 15) | (d[7] << 10) | (d[8] << 5) | d[9]
  }

  /** The 40-bit number eight digits stand for. */
  function RandomOf(d: seq<bv64>): bv64
    requires |d| == 8
  {
    (d[0] << 35) | (d[1] << 30) | (d[2] << 25) | (d[3] << 20)
    | (d[4] << 15) | (d[5] << 10) | (d[6] << 5) | d[7]
  }

  /** The two 40-bit random halves that toString(char[]) splits a ULID's random component into. */
  function Random0Part(u: Ulid): bv64 { ((u.msb & 0xffff) << 24) | (u.lsb >> 40) }
  function Random1Part(u: Ulid): bv64 { u.lsb & 0xff_ffff_ffff }

  /** The 26 digits toString(char[]) writes out. */
  function Digits(u: Ulid): (d: seq<bv64>)
    ensures |d| == UlidChars
  {
    TimeDigits(GetTime(u)) + RandomDigits(Random0Part(u)) + RandomDigits(Random1Part(u))
  }

  /** The ULID that from(String) builds from a time and two 40-bit random halves. */
  function Assemble(time: bv64, random0: bv64, random1: bv64): Ulid
  {
    Ulid((time << 16) | (random0 >> 24), (random0 << 40) | (random1 & 0xff_ffff_ffff))
  }

  /** The ULID that from(String) assembles from 26 digits. */
  function FromDigits(d: seq<bv64>): Ulid
    requires |d| == UlidChars
  {
    Assemble(TimeOf(d[..10]), RandomOf(d[10..18]), RandomOf(d[18..]))
  }

  /** True when every digit is below 32 and the first one below 8. */
  predicate WellFormedDigits(d: seq<bv64>)
  {
    |d| == UlidChars && d[0] < 8 && forall i :: 0 <= i < |d| ==> d[i] < 32
  }

  /** Ten digits give back a time of at most 50 bits. */
  lemma TimeDigitsRoundTrip(time: bv64)
    requires time >> 50 == 0
    ensures TimeOf(TimeDigits(time)) == time
  {
    var d := TimeDigits(time);
    assert d[0] == (time >> 45) & 31 && d[1] == (time >> 40) & 31 && d[2] == (time >> 35) & 31;
    assert d[3] == (time >> 30) & 31 && d[4] == (time >> 25) & 31 && d[5] == (time >> 20) & 31;
    assert d[6] == (time >> 15) & 31 && d[7] == (time >> 10) & 31 && d[8] == (time >> 5) & 31;
    assert d[9] == time & 31;
  }

  /** Eight digits give back a number of at most 40 bits. */
  lemma RandomDigitsRoundTrip(random: bv64)
    requires random >> 40 == 0
    ensures RandomOf(RandomDigits(random)) == random
  {
    var d := RandomDigits(random);
    assert d[0] == (random >> 35) & 31 && d[1] == (random >> 30) & 31 && d[2] == (random >> 25) & 31;
    assert d[3] == (random >> 20) & 31 && d[4] == (random >> 15) & 31 && d[5] == (random >> 10) & 31;
    assert d[6] == (random >> 5) & 31 && d[7] == random & 31;
  }

  /** Ten 5-bit digits packed into a long come apart again. */
  lemma TimeSplit(d: seq<bv64>)
    requires |d| == 10
    requires d[0] < 32 && d[1] < 32 && d[2] < 32 && d[3] < 32 && d[4] < 32
    requires d[5] < 32 && d[6] < 32 && d[7] < 32 && d[8] < 32 && d[9] < 32
    ensures var t := TimeOf(d);
      t >> 50 == 0 && (d[0] < 8 ==> t <= MaxTime)
      && (t >> 45) & 31 == d[0] && (t >> 40) & 31 == d[1] && (t >> 35) & 31 == d[2]
      && (t >> 30) & 31 == d[3] && (t >> 25) & 31 == d[4] && (t >> 20) & 31 == d[5]
      && (t >> 15) & 31 == d[6] && (t >> 10) & 31 == d[7] && (t >> 5) & 31 == d[8] && t & 31 == d[9]
  {
  }

  /** Eight 5-bit digits packed into a long come apart again. */
  lemma RandomSplit(d: seq<bv64>)
    requires |d| == 8
    requires d[0] < 32 && d[1] < 32 && d[2] < 32 && d[3] < 32
    requires d[4] < 32 && d[5] < 32 && d[6] < 32 && d[7] < 32
    ensures var r := RandomOf(d);
      r >> 40 == 0
      && (r >> 35) & 31 == d[0] && (r >> 30) & 31 == d[1] && (r >> 25) & 31 == d[2] && (r >> 20) & 31 == d[3]
      && (r >> 15) & 31 == d[4] && (r >> 10) & 31 == d[5] && (r >> 5) & 31 == d[6] && r & 31 == d[7]
  {
  }

  /** Ten digits below 32 make a number of at most 50 bits, and at most 48 if the first is below 8. */
  lemma TimeOfBounds(d: seq<bv64>)
    requires |d| == 10 && forall i :: 0 <= i < 10 ==> d[i] < 32
    ensures TimeOf(d) >> 50 == 0
    ensures d[0] < 8 ==> TimeOf(d) <= MaxTime
  {
    assert d[0] < 32 && d[1] < 32 && d[2] < 32 && d[3] < 32 && d[4] < 32;
    assert d[5] < 32 && d[6] < 32 && d[7] < 32 && d[8] < 32 && d[9] < 32;
    TimeSplit(d);
  }


  /** Assembling ten digits below 32 and splitting them again is the identity. */
  lemma TimeOfRoundTrip(d: seq<bv64>)
    requires |d| == 10 && forall i :: 0 <= i < 10 ==> d[i] < 32
    ensures TimeDigits(TimeOf(d)) == d
  {
    assert d[0] < 32 && d[1] < 32 && d[2] < 32 && d[3] < 32 && d[4] < 32;
    assert d[5] < 32 && d[6] < 32 && d[7] < 32 && d[8] < 32 && d[9] < 32;
    TimeSplit(d);
  }

  /** Eight digits below 32 make a number of at most 40 bits. */
  lemma RandomOfBounds(d: seq<bv64>)
    requires |d| == 8 && forall i :: 0 <= i < 8 ==> d[i] < 32
    ensures RandomOf(d) >> 40 == 0
  {
    assert d[0] < 32 && d[1] < 32 && d[2] < 32 && d[3] < 32;
    assert d[4] < 32 && d[5] < 32 && d[6] < 32 && d[7] < 32;
    RandomSplit(d);
  }


  /** Assembling eight digits below 32 and splitting them again is the identity. */
  lemma RandomOfRoundTrip(d: seq<bv64>)
    requires |d| == 8 && forall i :: 0 <= i < 8 ==> d[i] < 32
    ensures RandomDigits(RandomOf(d)) == d
  {
    assert d[0] < 32 && d[1] < 32 && d[2] < 32 && d[3] < 32;
    assert d[4] < 32 && d[5] < 32 && d[6] < 32 && d[7] < 32;
    RandomSplit(d);
  }

  /** The three parts of a ULID fit in 48, 40 and 40 bits. */
  lemma PartsFit(u: Ulid)
    ensures GetTime(u) <= MaxTime && GetTime(u) >> 50 == 0
    ensures Random0Part(u) >> 40 == 0 && Random1Part(u) >> 40 == 0
  {
  }

  /** The three parts of a ULID determine it. */
  lemma PartsDetermine(u: Ulid)
    ensures u == Assemble(GetTime(u), Random0Part(u), Random1Part(u))
  {
  }

  /** Parts that fit are the parts of the ULID assembled from them. */
  lemma PartsOfAssembled(time: bv64, random0: bv64, random1: bv64)
    requires time <= MaxTime && random0 >> 40 == 0 && random1 >> 40 == 0
    ensures var u := Assemble(time, random0, random1);
      GetTime(u) == time && Random0Part(u) == random0 && Random1Part(u) == random1
  {
  }

  /** Split time digits are 5-bit values; a 48-bit time starts with a digit below 8. */
  lemma TimeDigitsBounded(time: bv64)
    ensures forall i :: 0 <= i < 10 ==> TimeDigits(time)[i] < 32
    ensures time <= MaxTime ==> TimeDigits(time)[0] < 8
  {
    forall i | 0 <= i < 10
      ensures TimeDigits(time)[i] < 32
    {
      assert TimeDigits(time)[i] & 31 == TimeDigits(time)[i];
    }
    if time <= MaxTime {
      FirstTimeDigit(time);
    }
  }

  /** The top digit of a 48-bit time holds its three highest bits. */
  lemma FirstTimeDigit(time: bv64)
    requires time <= MaxTime
    ensures (time >> 45) & 31 < 8
  {
    assert time >> 48 == 0;
  }

  /** Split random digits are 5-bit values. */
  lemma RandomDigitsBounded(random: bv64)
    ensures forall i :: 0 <= i < 8 ==> RandomDigits(random)[i] < 32
  {
    forall i | 0 <= i < 8
      ensures RandomDigits(random)[i] < 32
    {
      assert RandomDigits(random)[i] & 31 == RandomDigits(random)[i];
    }
  }

  /** Slicing a concatenation of three sequences gives back the three. */
  lemma Thirds<T>(a: seq<T>, b: seq<T>, c: seq<T>)
    ensures var s := a + b + c;
      s[..|a|] == a && s[|a|..|a| + |b|] == b && s[|a| + |b|..] == c
  {
  }

  /** The 26 digits of every ULID are well formed. */
  lemma DigitsWellFormed(u: Ulid)
    ensures WellFormedDigits(Digits(u))
  {
    PartsFit(u);
    var time, random0, random1 := GetTime(u), Random0Part(u), Random1Part(u);
    TimeDigitsBounded(time);
    RandomDigitsBounded(random0);
    RandomDigitsBounded(random1);
    JoinWellFormed(TimeDigits(time), RandomDigits(random0), RandomDigits(random1));
  }

  /** Ten and twice eight 5-bit digits, the first below 8, join into well-formed digits. */
  lemma JoinWellFormed(t: seq<bv64>, r0: seq<bv64>, r1: seq<bv64>)
    requires |t| == 10 && |r0| == 8 && |r1| == 8 && t[0] < 8
    requires forall i :: 0 <= i < 10 ==> t[i] < 32
    requires forall i :: 0 <= i < 8 ==> r0[i] < 32 && r1[i] < 32
    ensures WellFormedDigits(t + r0 + r1)
  {
    var d := t + r0 + r1;
    forall i | 0 <= i < |d|
      ensures d[i] < 32
    {
      if i < 10 {
        assert d[i] == t[i];
      } else if i < 18 {
        assert d[i] == r0[i - 10];
      } else {
        assert d[i] == r1[i - 18];
      }
    }
  }

  /** Every ULID comes back from its 26 digits. */
  lemma DigitsRoundTrip(u: Ulid)
    ensures FromDigits(Digits(u)) == u
  {
    PartsFit(u);
    var time, random0, random1 := GetTime(u), Random0Part(u), Random1Part(u);
    Thirds(TimeDigits(time), RandomDigits(random0), RandomDigits(random1));
    TimeDigitsRoundTrip(time);
    RandomDigitsRoundTrip(random0);
    RandomDigitsRoundTrip(random1);
    PartsDetermine(u);
  }

  /** Well-formed digits come back from the ULID assembled from them. */
  lemma FromDigitsRoundTrip(d: seq<bv64>)
    requires WellFormedDigits(d)
    ensures Digits(FromDigits(d)) == d
  {
    var t, r0, r1 := d[..10], d[10..18], d[18..];
    TimeOfBounds(t);
    RandomOfBounds(r0);
    RandomOfBounds(r1);
    PartsOfAssembled(TimeOf(t), RandomOf(r0), RandomOf(r1));
    TimeOfRoundTrip(t);
    RandomOfRoundTrip(r0);
    RandomOfRoundTrip(r1);
    assert d == t + r0 + r1;
  }

  // ---------------------------------------------------------------------------
  // Encoding and decoding
  // ---------------------------------------------------------------------------

  /** toString(char[] alphabet): each of the 26 digits looked up in the alphabet. */
  function ToStringWith(u: Ulid, alphabet: seq<char>): (s: string)
    requires |alphabet| == 32
    ensures |s| == UlidChars
    ensures forall i :: 0 <= i < UlidChars ==> s[i] in alphabet
  {
    var d := Digits(u);
    DigitsWellFormed(u);
    seq(UlidChars, i requires 0 <= i < UlidChars => alphabet[d[i] as int])
  }

  /** toString(): the canonical upper-case string. */
  function ToString(u: Ulid): (s: string)
    ensures |s| == UlidChars
    ensures forall i :: 0 <= i < |s| ==> s[i] in Upper
  {
    ToStringWith(u, Upper)
  }

  /** toLowerCase(): the canonical string in lower case. */
  function ToLowerCase(u: Ulid): (s: string)
    ensures |s| == UlidChars
    ensures forall i :: 0 <= i < |s| ==> s[i] in Lower
  {
    ToStringWith(u, Lower)
  }

  /** The digit value of each character, as a long. */
  function DigitValues(chars: seq<char>): (d: seq<bv64>)
    requires forall i :: 0 <= i < |chars| ==> AlphabetValue(chars[i]) != -1
    ensures |d| == |chars|
  {
    seq(|chars|, i requires 0 <= i < |chars| => AlphabetValue(chars[i]) as bv64)
  }

  /** from(String): decode a valid string, or an exception. */
  function FromString(s: Option<string>): (r: Result<Ulid, Error>)
    ensures r.Ok? <==> IsValid(s)
    ensures r.Err? ==> r.error == InvalidString
  {
    match ToCharArray(s)
    case Err(e) => Err(e)
    case Ok(chars) => Ok(FromDigits(DigitValues(chars)))
  }

  /** getTime(String): the time read from the first ten characters of a valid string. */
  function TimeOfString(s: Option<string>): (r: Result<bv64, Error>)
    ensures r.Ok? <==> IsValid(s)
    ensures r.Err? ==> r.error == InvalidString
  {
    match ToCharArray(s)
    case Err(e) => Err(e)
    case Ok(chars) => Ok(TimeOf(DigitValues(chars)[..10]))
  }

  /** The ten random bytes of two 40-bit halves, most significant first. */
  function HalvesToBytes(random0: bv64, random1: bv64): (b: seq<byte>)
    ensures |b| == RandomBytes
  {
    [Byte(random0 >> 32), Byte(random0 >> 24), Byte(random0 >> 16), Byte(random0 >> 8), Byte(random0),
     Byte(random1 >> 32), Byte(random1 >> 24), Byte(random1 >> 16), Byte(random1 >> 8), Byte(random1)]
  }

  /** getRandom(String): the random bytes read from the last sixteen characters of a valid string. */
  function RandomOfString(s: Option<string>): (r: Result<seq<byte>, Error>)
    ensures r.Ok? <==> IsValid(s)
    ensures r.Err? ==> r.error == InvalidString
  {
    match ToCharArray(s)
    case Err(e) => Err(e)
    case Ok(chars) =>
      var d := DigitValues(chars);
      Ok(HalvesToBytes(RandomOf(d[10..18]), RandomOf(d[18..])))
  }

  /** The random bytes of an assembled ULID are those of its two 40-bit halves. */
  lemma AssembledRandom(time: bv64, random0: bv64, random1: bv64)
    requires time <= MaxTime && random0 >> 40 == 0 && random1 >> 40 == 0
    ensures GetRandom(Assemble(time, random0, random1)) == HalvesToBytes(random0, random1)
  {
  }

  /** getTime(String) agrees with from(String) followed by getTime(). */
  lemma {:induction false} TimeOfStringAgrees(s: string)
    requires IsValid(Some(s))
    ensures TimeOfString(Some(s)) == Ok(GetTime(FromString(Some(s)).value))
  {
    ValidDigits(s);
    var d := DigitValues(s);
    TimeOfBounds(d[..10]);
    RandomOfBounds(d[10..18]);
    RandomOfBounds(d[18..]);
    PartsOfAssembled(TimeOf(d[..10]), RandomOf(d[10..18]), RandomOf(d[18..]));
  }

  /** getRandom(String) agrees with from(String) followed by getRandom(). */
  lemma {:induction false} RandomOfStringAgrees(s: string)
    requires IsValid(Some(s))
    ensures RandomOfString(Some(s)) == Ok(GetRandom(FromString(Some(s)).value))
  {
    ValidDigits(s);
    var d := DigitValues(s);
    TimeOfBounds(d[..10]);
    RandomOfBounds(d[10..18]);
    RandomOfBounds(d[18..]);
    AssembledRandom(TimeOf(d[..10]), RandomOf(d[10..18]), RandomOf(d[18..]));
  }

  /** The upper-case spelling of each character's digit value. */
  function Canonical(chars: seq<char>): (s: string)
    requires forall i :: 0 <= i < |chars| ==> AlphabetValue(chars[i]) != -1
    ensures |s| == |chars|
  {
    seq(|chars|, i requires 0 <= i < |chars| => Upper[AlphabetValue(chars[i])])
  }

  /** A small number keeps its value through a 64-bit long. */
  lemma SmallToLong(v: int)
    requires 0 <= v < 32
    ensures (v as bv64) as int == v && v as bv64 < 32
  {
    assert (v as bv5) as int == v;
    assert v as bv64 == (v as bv5) as bv64;
    assert ((v as bv5) as bv64) as int == (v as bv5) as int;
  }

  /** The digit values of a valid string are well formed. */
  lemma {:induction false} ValidDigits(chars: seq<char>)
    requires IsValid(Some(chars))
    ensures WellFormedDigits(DigitValues(chars))
    ensures forall i :: 0 <= i < UlidChars ==> DigitValues(chars)[i] as int == AlphabetValue(chars[i])
  {
    var d := DigitValues(chars);
    forall i | 0 <= i < UlidChars
      ensures d[i] < 32 && d[i] as int == AlphabetValue(chars[i])
    {
      SmallToLong(AlphabetValue(chars[i]));
    }
    FirstDigitTest(AlphabetValue(chars[0]));
  }

  /** A 5-bit long keeps its value through an int. */
  lemma LongToSmall(x: bv64)
    requires x < 32
    ensures 0 <= x as int < 32 && (x as int) as bv64 == x
  {
  }

  /** Spelling a ULID's digits in an alphabet and reading them back. */
  lemma {:induction false} SpelledDigits(u: Ulid, alphabet: seq<char>)
    requires |alphabet| == 32
    requires forall k :: 0 <= k < 32 ==> alphabet[k] as int < TableSize && AlphabetValue(alphabet[k]) == k
    ensures IsValid(Some(ToStringWith(u, alphabet)))
    ensures DigitValues(ToStringWith(u, alphabet)) == Digits(u)
  {
    DigitsWellFormed(u);
    var d, s := Digits(u), ToStringWith(u, alphabet);
    forall i | 0 <= i < UlidChars
      ensures AlphabetValue(s[i]) == d[i] as int && s[i] as int < TableSize
    {
      LongToSmall(d[i]);
    }
    LongToSmall(d[0]);
    FirstDigitTest(d[0] as int);
    forall i | 0 <= i < UlidChars
      ensures DigitValues(s)[i] == d[i]
    {
      LongToSmall(d[i]);
    }
  }

  /** Decoding toString(u) gives back u exactly, and toString(u) is valid. */
  lemma {:induction false} StringRoundTrip(u: Ulid)
    ensures IsValid(Some(ToString(u)))
    ensures FromString(Some(ToString(u))) == Ok(u)
  {
    UpperDecodes();
    SpelledDigits(u, Upper);
    DigitsRoundTrip(u);
  }

  /** Decoding toLowerCase(u) gives back u exactly, and toLowerCase(u) is valid. */
  lemma {:induction false} LowerCaseRoundTrip(u: Ulid)
    ensures IsValid(Some(ToLowerCase(u)))
    ensures FromString(Some(ToLowerCase(u))) == Ok(u)
  {
    LowerDecodes();
    SpelledDigits(u, Lower);
    DigitsRoundTrip(u);
  }

  /**
   * Decoding a valid string and encoding the result spells the same digits
   * in upper case: aliases and lower-case letters are normalised, nothing
   * else changes.
   */
  lemma {:induction false} CanonicalRoundTrip(s: string)
    requires IsValid(Some(s))
    ensures FromString(Some(s)).Ok?
    ensures ToString(FromString(Some(s)).value) == Canonical(s)
  {
    ValidDigits(s);
    FromDigitsRoundTrip(DigitValues(s));
    SpelledCanonical(FromDigits(DigitValues(s)), s);
  }

  /** A ULID whose digits are those of a valid string is written as its canonical spelling. */
  lemma {:induction false} SpelledCanonical(u: Ulid, s: string)
    requires IsValid(Some(s)) && Digits(u) == DigitValues(s)
    ensures ToString(u) == Canonical(s)
  {
    ValidDigits(s);
    var d, t, c := Digits(u), ToString(u), Canonical(s);
    forall i | 0 <= i < UlidChars
      ensures t[i] == c[i]
    {
      assert t[i] == Upper[d[i] as int];
    }
  }
}
