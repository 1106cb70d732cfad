# tiny-security: ULIDs, access rules and the session interceptor, in Dafny

This project models three pieces of the tiny-security Spring Boot starter
and proves properties of them:

- **Ulid** (`ulid.dfy`, `ulid_string.dfy`, `ulid_alphabet.dfy`, with
  Java `long` arithmetic in `java_long.dfy`). This is the immutable 128-bit
  Universally Unique Lexicographically Sortable Identifier: a 48-bit
  millisecond time followed by 80 random bits, held as two `long`s.
  - The model covers its constructors, `min`/`max`, the byte form, and the
    26-character Crockford Base 32 form in both cases.
  - It also covers the static `getTime`/`getRandom` on strings, `increment`,
    `compareTo`, `equals` and `toRfc4122`.
  - Java's `long` is a `bv64`, so `+` wraps around as in Java. A `byte` is a `bv8`.
  - `Unsigned` and `Signed` give the two readings of a long as a number.
  - The `ALPHABET_VALUES` decoding table is an array filled by a method. It
    is proved equal to an independent, piecewise definition of Crockford
    decoding.
  - `isValidCharArray` is a loop method proved equal to the validity predicate.
  - `ulid_order.dfy` proves that the canonical strings sort like the
    ULIDs: comparing two `toString()` (or two `toLowerCase()`) outputs
    character by character orders them exactly as `compareTo` does.
- **AuthUtil** (`auth_util.dfy`) decides whether a handler method may be
  called: `checkPermission` and `checkRole`, `checkIgnore`, and `getToken`.
  - Reflective annotation lookups become `Option` inputs, one for the method
    and one for its declaring class.
  - The OR and AND loops are methods proved equal to a set-based
    specification, `Permits`.
- **AuthenticeInterceptor** (`authentice_interceptor.dfy`) is a class. It
  holds the session store behind its `AuthProvider` and the
  `AuthenticeHolder` login-id slot.
  - `PreHandle` runs the guard chain and the sliding refresh.
  - `AfterCompletion` clears the holder.
  - The branch a request takes is the pure function `Classify`. The
    refreshed expiry is `SlidExpiry`.

The interceptor refreshes a session when the remaining time is at most `floor(timeout * 1000 * 0.6)` milliseconds, that is, 60% of the timeout (tiny-security-core/src/main/java/org/tinycloud/security/interceptor/AuthenticeInterceptor.java:86-87). `PreHandle` takes that threshold as the parameter `millsCritical`; `MillsCritical` gives its value in exact arithmetic.

The interceptor calls `org.tinycloud.security.util.AuthUtil.checkIgnore`, which is not part of this model. It is taken to behave like the `checkIgnore` of the bluewind `AuthUtil` that is modelled here: true when the method or its class carries `@Ignore`.

## Model

| member | source | states |
|---|---|---|
| Ulids.GetTime | tiny-security-core/src/main/java/org/tinycloud/security/util/idgen/ulid/Ulid.java:479-481 | getTime() is at most 2^48 - 1 |
| Ulids.FromTimeAndRandom | tiny-security-core/src/main/java/org/tinycloud/security/util/idgen/ulid/Ulid.java:149-181 | a time with any of its top 16 bits set is rejected first, then a random part that is null or not 10 bytes; the result is Ok exactly when neither applies |
| Ulids.FromTimeAndRandomTime | tiny-security-core/src/main/java/org/tinycloud/security/util/idgen/ulid/Ulid.java:163-181 | a ULID built from a valid time and random part has getTime() equal to that time |
| Ulids.FromTimeAndRandomRandom | tiny-security-core/src/main/java/org/tinycloud/security/util/idgen/ulid/Ulid.java:163-181 | a ULID built from a valid time and random part has getRandom() equal to those 10 bytes |
| Ulids.TimeAndRandomDetermine | tiny-security-core/src/main/java/org/tinycloud/security/util/idgen/ulid/Ulid.java:520-537 | rebuilding a ULID from its getTime() and getRandom() gives it back |
| Ulids.GetRandom | tiny-security-core/src/main/java/org/tinycloud/security/util/idgen/ulid/Ulid.java:520-537 | getRandom() returns 10 bytes |
| Ulids.MinOf | tiny-security-core/src/main/java/org/tinycloud/security/util/idgen/ulid/Ulid.java:220-222 | min(time) carries the low 48 bits of time and ten zero random bytes |
| Ulids.MaxOf | tiny-security-core/src/main/java/org/tinycloud/security/util/idgen/ulid/Ulid.java:241-243 | max(time) carries the low 48 bits of time and ten 0xff random bytes |
| Ulids.MinOfBelow | tiny-security-core/src/main/java/org/tinycloud/security/util/idgen/ulid/Ulid.java:220-222 | min(getTime(u)) is at or below u as an unsigned 128-bit number |
| Ulids.MaxOfAbove | tiny-security-core/src/main/java/org/tinycloud/security/util/idgen/ulid/Ulid.java:241-243 | max(getTime(u)) is at or above u as an unsigned 128-bit number |
| Ulids.UnpackLong | tiny-security-core/src/main/java/org/tinycloud/security/util/idgen/ulid/Ulid.java:366-389 | a long becomes 8 bytes |
| Ulids.ToBytes | tiny-security-core/src/main/java/org/tinycloud/security/util/idgen/ulid/Ulid.java:366-389 | toBytes() returns 16 bytes |
| Ulids.FromBytes | tiny-security-core/src/main/java/org/tinycloud/security/util/idgen/ulid/Ulid.java:262-290 | from(byte[]) fails, with the invalid-bytes error, exactly when the array is null or not 16 long |
| Ulids.PackOfUnpack | tiny-security-core/src/main/java/org/tinycloud/security/util/idgen/ulid/Ulid.java:366-386 | splitting a long into 8 big-endian bytes and packing them back gives the long |
| Ulids.UnpackOfPack | tiny-security-core/src/main/java/org/tinycloud/security/util/idgen/ulid/Ulid.java:270-287 | packing 8 bytes into a long and splitting it again gives the same 8 bytes |
| Ulids.BytesRoundTrip | tiny-security-core/src/main/java/org/tinycloud/security/util/idgen/ulid/Ulid.java:366-389 | from(toBytes(u)) == u for every ULID |
| Ulids.BytesRoundTripFromBytes | tiny-security-core/src/main/java/org/tinycloud/security/util/idgen/ulid/Ulid.java:262-290 | toBytes(from(b)) == b for every 16-byte array |
| Ulids.Value | tiny-security-core/src/main/java/org/tinycloud/security/util/idgen/ulid/Ulid.java:692-714 | the unsigned 128-bit value of a ULID, the order compareTo sorts by, lies in [0, 2^128) |
| Ulids.ValueInjective | tiny-security-core/src/main/java/org/tinycloud/security/util/idgen/ulid/Ulid.java:692-714 | two ULIDs have the same 128-bit value iff they are equal |
| Ulids.MinMaxValues | tiny-security-core/src/main/java/org/tinycloud/security/util/idgen/ulid/Ulid.java:69-73 | MIN is 0 and MAX is 2^128 - 1 |
| Ulids.Sign | tiny-security-core/src/main/java/org/tinycloud/security/util/idgen/ulid/Ulid.java:688-689 | the sign is 1, -1 or 0 exactly as the number is positive, negative or zero |
| Ulids.LexSign | tiny-security-core/src/main/java/org/tinycloud/security/util/idgen/ulid/Ulid.java:692-714 | comparing (msb, lsb) lexicographically is comparing msb * 2^64 + lsb |
| Ulids.CompareHalvesLex | tiny-security-core/src/main/java/org/tinycloud/security/util/idgen/ulid/Ulid.java:692-714 | shifting both longs by Long.MIN_VALUE and comparing signed compares them as unsigned numbers, msb first, then lsb |
| Ulids.CompareTo | tiny-security-core/src/main/java/org/tinycloud/security/util/idgen/ulid/Ulid.java:684-714 | compareTo returns -1, 0 or 1 |
| Ulids.CompareToSign | tiny-security-core/src/main/java/org/tinycloud/security/util/idgen/ulid/Ulid.java:692-714 | compareTo returns the sign of the difference of the two unsigned 128-bit values |
| Ulids.CompareToLess | tiny-security-core/src/main/java/org/tinycloud/security/util/idgen/ulid/Ulid.java:692-714 | compareTo is negative exactly when u is below that as unsigned 128-bit numbers |
| Ulids.CompareToEqual | tiny-security-core/src/main/java/org/tinycloud/security/util/idgen/ulid/Ulid.java:692-714 | compareTo is 0 exactly when the ULIDs are equal |
| Ulids.CompareToAntisymmetric | tiny-security-core/src/main/java/org/tinycloud/security/util/idgen/ulid/Ulid.java:692-714 | compareTo(u, v) == -compareTo(v, u) |
| Ulids.Equals | tiny-security-core/src/main/java/org/tinycloud/security/util/idgen/ulid/Ulid.java:668-679 | equals is false for null and true exactly for a ULID with the same two halves |
| Ulids.CompareToConsistentWithEquals | tiny-security-core/src/main/java/org/tinycloud/security/util/idgen/ulid/Ulid.java:668-714 | compareTo returns 0 exactly when equals holds |
| Ulids.WrapsExactlyAtOnes | tiny-security-core/src/main/java/org/tinycloud/security/util/idgen/ulid/Ulid.java:103-104 | lsb + 1 wraps to INCREMENT_OVERFLOW (0) exactly when lsb is all ones |
| Ulids.Increment | tiny-security-core/src/main/java/org/tinycloud/security/util/idgen/ulid/Ulid.java:627-637 | increment() adds one to lsb, wrapping around, and changes msb exactly when lsb was all ones |
| Ulids.IncrementNoCarry | tiny-security-core/src/main/java/org/tinycloud/security/util/idgen/ulid/Ulid.java:627-637 | without a carry, increment() adds one to the 128-bit value |
| Ulids.IncrementCarry | tiny-security-core/src/main/java/org/tinycloud/security/util/idgen/ulid/Ulid.java:627-637 | with a carry into an msb that is not all ones, increment() adds one to the 128-bit value |
| Ulids.IncrementMax | tiny-security-core/src/main/java/org/tinycloud/security/util/idgen/ulid/Ulid.java:627-637 | MAX.increment() == MIN |
| Ulids.IncrementValue | tiny-security-core/src/main/java/org/tinycloud/security/util/idgen/ulid/Ulid.java:627-637 | increment() is the 128-bit value plus one modulo 2^128: plus one, except that MAX wraps to 0 |
| Ulids.IncrementIncreases | tiny-security-core/src/main/java/org/tinycloud/security/util/idgen/ulid/Ulid.java:627-637 | every ULID but MAX is below its increment |
| Ulids.ToRfc4122 | tiny-security-core/src/main/java/org/tinycloud/security/util/idgen/ulid/Ulid.java:437-446 | toRfc4122() has version nibble 4 (bits 12-15 of msb are 0100) and variant bits 10 at the top of lsb |
| Ulids.VersionNibble | tiny-security-core/src/main/java/org/tinycloud/security/util/idgen/ulid/Ulid.java:437-446 | the stamped msb has version bits 0100 in the high nibble of byte 6 |
| Ulids.VersionKeepsOthers | tiny-security-core/src/main/java/org/tinycloud/security/util/idgen/ulid/Ulid.java:437-446 | the version stamp changes no other bit of msb |
| Ulids.VariantBits | tiny-security-core/src/main/java/org/tinycloud/security/util/idgen/ulid/Ulid.java:437-446 | the stamped lsb has variant bits 10 at the top |
| Ulids.VariantKeepsOthers | tiny-security-core/src/main/java/org/tinycloud/security/util/idgen/ulid/Ulid.java:437-446 | the variant stamp changes no other bit of lsb |
| Ulids.VersionByte | tiny-security-core/src/main/java/org/tinycloud/security/util/idgen/ulid/Ulid.java:439-440 | byte 6 of the stamped msb starts with the nibble 4 |
| Ulids.VariantByte | tiny-security-core/src/main/java/org/tinycloud/security/util/idgen/ulid/Ulid.java:441-442 | byte 8 (the top byte of the stamped lsb) starts with the bits 10 |
| Ulids.Rfc4122VersionByte | tiny-security-core/src/main/java/org/tinycloud/security/util/idgen/ulid/Ulid.java:437-446 | in toBytes(), byte 6 of toRfc4122() starts with the nibble 4 |
| Ulids.Rfc4122VariantByte | tiny-security-core/src/main/java/org/tinycloud/security/util/idgen/ulid/Ulid.java:437-446 | in toBytes(), byte 8 of toRfc4122() starts with the bits 10 |
| Ulids.VersionKeepsTime | tiny-security-core/src/main/java/org/tinycloud/security/util/idgen/ulid/Ulid.java:437-446 | the version stamp keeps the 48 time bits |
| Ulids.Rfc4122KeepsTime | tiny-security-core/src/main/java/org/tinycloud/security/util/idgen/ulid/Ulid.java:437-446 | toRfc4122() keeps getTime() |
| Ulids.VersionIdempotent | tiny-security-core/src/main/java/org/tinycloud/security/util/idgen/ulid/Ulid.java:439-440 | stamping the version twice is stamping it once |
| Ulids.VariantIdempotent | tiny-security-core/src/main/java/org/tinycloud/security/util/idgen/ulid/Ulid.java:441-442 | stamping the variant twice is stamping it once |
| Ulids.Rfc4122Idempotent | tiny-security-core/src/main/java/org/tinycloud/security/util/idgen/ulid/Ulid.java:437-446 | toRfc4122() is idempotent |
| JavaLongs.UnsignedRange | tiny-security-core/src/main/java/org/tinycloud/security/util/idgen/ulid/Ulid.java:692-714 | a long read as unsigned lies in [0, 2^64) |
| JavaLongs.UnsignedInjective | tiny-security-core/src/main/java/org/tinycloud/security/util/idgen/ulid/Ulid.java:692-714 | distinct longs have distinct unsigned values |
| JavaLongs.UnsignedZeroAndOnes | tiny-security-core/src/main/java/org/tinycloud/security/util/idgen/ulid/Ulid.java:69-73 | 0 reads as 0 and all ones as 2^64 - 1 |
| JavaLongs.FloorAndCeiling | tiny-security-core/src/main/java/org/tinycloud/security/util/idgen/ulid/Ulid.java:220-243 | clearing the low 16 bits of a long gives an unsigned value at or below it, and setting them gives one at or above it |
| JavaLongs.ShiftedGreater | tiny-security-core/src/main/java/org/tinycloud/security/util/idgen/ulid/Ulid.java:695-712 | after adding Long.MIN_VALUE to both, signed greater-than is unsigned greater-than |
| JavaLongs.UnsignedIncrement | tiny-security-core/src/main/java/org/tinycloud/security/util/idgen/ulid/Ulid.java:627-637 | adding one to a long adds one to its unsigned value, except that all ones wraps to 0 |
| UlidAlphabet.AlphabetValue | tiny-security-core/src/main/java/org/tinycloud/security/util/idgen/ulid/Ulid.java:75-101 | a decoded character value is -1 or a digit in 0..31 |
| UlidAlphabet.UpperDecodes | tiny-security-core/src/main/java/org/tinycloud/security/util/idgen/ulid/Ulid.java:76-90 | the upper-case alphabet spells 0..31 in order, in 8-bit characters |
| UlidAlphabet.LowerDecodes | tiny-security-core/src/main/java/org/tinycloud/security/util/idgen/ulid/Ulid.java:77-90 | the lower-case alphabet spells 0..31 in order, in 8-bit characters |
| UlidAlphabet.UpperAscending | tiny-security-core/src/main/java/org/tinycloud/security/util/idgen/ulid/Ulid.java:76 | the upper-case alphabet is in ascending character order |
| UlidAlphabet.AlphabetValueCovered | tiny-security-core/src/main/java/org/tinycloud/security/util/idgen/ulid/Ulid.java:79-101 | every character with a digit value is in one of the alphabets or is one of O, I, L in either case |
| UlidAlphabet.EnterAlphabet | tiny-security-core/src/main/java/org/tinycloud/security/util/idgen/ulid/Ulid.java:85-90 | one alphabet loop enters each of its characters with its index |
| UlidAlphabet.BuildAlphabetValues | tiny-security-core/src/main/java/org/tinycloud/security/util/idgen/ulid/Ulid.java:79-101 | the static initializer fills a 256-entry table equal to Crockford decoding on every 8-bit code |
| UlidStrings.IsValidCharArray | tiny-security-core/src/main/java/org/tinycloud/security/util/idgen/ulid/Ulid.java:772-801 | the loop with early returns decides exactly the validity predicate |
| UlidStrings.FirstDigitTest | tiny-security-core/src/main/java/org/tinycloud/security/util/idgen/ulid/Ulid.java:794 | the bit test on the first digit passes exactly for digits 0..7 |
| UlidStrings.AcceptedCharIff | tiny-security-core/src/main/java/org/tinycloud/security/util/idgen/ulid/Ulid.java:779-787 | a character passes the table lookup iff it is in one of the alphabets or an alias |
| UlidStrings.FirstCharIff | tiny-security-core/src/main/java/org/tinycloud/security/util/idgen/ulid/Ulid.java:794-799 | an accepted first character passes the overflow test iff it is one of 0..7 or an alias |
| UlidStrings.IsValidIff | tiny-security-core/src/main/java/org/tinycloud/security/util/idgen/ulid/Ulid.java:772-801 | isValid holds exactly of 26-character strings of alphabet characters and aliases whose first character is 0..7 or an alias |
| UlidStrings.ToCharArray | tiny-security-core/src/main/java/org/tinycloud/security/util/idgen/ulid/Ulid.java:756-762 | toCharArray succeeds with the characters exactly when they are valid, else raises the invalid-string error |
| UlidStrings.ToStringWith | tiny-security-core/src/main/java/org/tinycloud/security/util/idgen/ulid/Ulid.java:716-754 | toString(alphabet) writes 26 characters, each from the alphabet |
| UlidStrings.ToString | tiny-security-core/src/main/java/org/tinycloud/security/util/idgen/ulid/Ulid.java:390-406 | toString() is 26 characters long, all from the upper-case Crockford alphabet |
| UlidStrings.ToLowerCase | tiny-security-core/src/main/java/org/tinycloud/security/util/idgen/ulid/Ulid.java:408-422 | toLowerCase() is 26 characters long, all from the lower-case Crockford alphabet |
| UlidStrings.FromString | tiny-security-core/src/main/java/org/tinycloud/security/util/idgen/ulid/Ulid.java:305-345 | from(String) fails, with the invalid-string error, exactly when isValid fails |
| UlidStrings.TimeOfString | tiny-security-core/src/main/java/org/tinycloud/security/util/idgen/ulid/Ulid.java:493-511 | getTime(String) fails exactly when isValid fails |
| UlidStrings.RandomOfString | tiny-security-core/src/main/java/org/tinycloud/security/util/idgen/ulid/Ulid.java:548-588 | getRandom(String) fails exactly when isValid fails |
| UlidStrings.HalvesToBytes | tiny-security-core/src/main/java/org/tinycloud/security/util/idgen/ulid/Ulid.java:578-588 | two 40-bit halves give 10 bytes |
| UlidStrings.AssembledRandom | tiny-security-core/src/main/java/org/tinycloud/security/util/idgen/ulid/Ulid.java:548-588 | the random bytes of the ULID from(String) builds are the bytes getRandom(String) writes from the same halves |
| UlidStrings.TimeOfStringAgrees | tiny-security-core/src/main/java/org/tinycloud/security/util/idgen/ulid/Ulid.java:493-511 | getTime(s) == from(s).getTime() for every valid s |
| UlidStrings.RandomOfStringAgrees | tiny-security-core/src/main/java/org/tinycloud/security/util/idgen/ulid/Ulid.java:548-588 | getRandom(s) == from(s).getRandom() for every valid s |
| UlidStrings.TimeDigitsRoundTrip | tiny-security-core/src/main/java/org/tinycloud/security/util/idgen/ulid/Ulid.java:722-732 | a time of at most 50 bits is rebuilt from its ten 5-bit digits |
| UlidStrings.RandomDigitsRoundTrip | tiny-security-core/src/main/java/org/tinycloud/security/util/idgen/ulid/Ulid.java:734-752 | a 40-bit random half is rebuilt from its eight 5-bit digits |
| UlidStrings.TimeOfBounds | tiny-security-core/src/main/java/org/tinycloud/security/util/idgen/ulid/Ulid.java:311-322 | ten 5-bit digits make a number of at most 50 bits, and of at most 48 bits when the first is below 8 |
| UlidStrings.RandomOfBounds | tiny-security-core/src/main/java/org/tinycloud/security/util/idgen/ulid/Ulid.java:324-340 | eight 5-bit digits make a number of at most 40 bits |
| UlidStrings.PartsDetermine | tiny-security-core/src/main/java/org/tinycloud/security/util/idgen/ulid/Ulid.java:342-343 | a ULID is rebuilt from its time and two random halves |
| UlidStrings.DigitsWellFormed | tiny-security-core/src/main/java/org/tinycloud/security/util/idgen/ulid/Ulid.java:716-754 | the 26 digits of any ULID are 5-bit values and the first is below 8 |
| UlidStrings.DigitsRoundTrip | tiny-security-core/src/main/java/org/tinycloud/security/util/idgen/ulid/Ulid.java:305-345 | decoding the digits toString writes gives the ULID back |
| UlidStrings.FromDigitsRoundTrip | tiny-security-core/src/main/java/org/tinycloud/security/util/idgen/ulid/Ulid.java:305-345 | encoding the ULID decoded from well-formed digits gives the digits back |
| UlidStrings.ValidDigits | tiny-security-core/src/main/java/org/tinycloud/security/util/idgen/ulid/Ulid.java:772-801 | the digit values of a valid string are well formed |
| UlidStrings.SpelledDigits | tiny-security-core/src/main/java/org/tinycloud/security/util/idgen/ulid/Ulid.java:716-754 | a ULID spelled in either alphabet is valid and reads back as its digits |
| UlidStrings.StringRoundTrip | tiny-security-core/src/main/java/org/tinycloud/security/util/idgen/ulid/Ulid.java:404-406 | toString() is valid and from(toString(u)) == u |
| UlidStrings.LowerCaseRoundTrip | tiny-security-core/src/main/java/org/tinycloud/security/util/idgen/ulid/Ulid.java:420-422 | toLowerCase() is valid and from(toLowerCase(u)) == u |
| UlidStrings.CanonicalRoundTrip | tiny-security-core/src/main/java/org/tinycloud/security/util/idgen/ulid/Ulid.java:305-345 | toString(from(s)) is s with lower-case letters and aliases replaced by their upper-case digits |
| AuthChecks.FindAnnotation | src/main/java/org/bluewind/authclient/util/AuthUtil.java:89-93 | the method's annotation is used when present, otherwise the declaring class's |
| AuthChecks.Entitlements | src/main/java/org/bluewind/authclient/util/AuthUtil.java:84-87 | a null entitlement set is read as the empty set |
| AuthChecks.HoldsAny | src/main/java/org/bluewind/authclient/util/AuthUtil.java:101-108 | the OR loop returns true iff some required code is held |
| AuthChecks.HoldsAll | src/main/java/org/bluewind/authclient/util/AuthUtil.java:109-116 | the AND loop returns true iff every required code is held |
| AuthChecks.CheckRequirement | src/main/java/org/bluewind/authclient/util/AuthUtil.java:83-120 | the check equals the specification Permits on the governing annotation and the entitlement set |
| AuthChecks.CheckPermission | src/main/java/org/bluewind/authclient/util/AuthUtil.java:83-120 | checkPermission equals Permits on the @RequiresPermissions lookups |
| AuthChecks.CheckRole | src/main/java/org/bluewind/authclient/util/AuthUtil.java:130-169 | checkRole equals the same Permits on the @RequiresRoles lookups |
| AuthChecks.NoRequirementAllows | src/main/java/org/bluewind/authclient/util/AuthUtil.java:94-97 | with no annotation on the method or its class, the check passes whatever is held |
| AuthChecks.MethodRequirementWins | src/main/java/org/bluewind/authclient/util/AuthUtil.java:89-93 | a method-level annotation decides alone, whatever the class carries |
| AuthChecks.ClassRequirementFallback | src/main/java/org/bluewind/authclient/util/AuthUtil.java:90-93 | without a method-level annotation, the class-level one decides |
| AuthChecks.OrMeansSome | src/main/java/org/bluewind/authclient/util/AuthUtil.java:101-108 | under OR the check passes iff some listed code is held |
| AuthChecks.AndMeansAll | src/main/java/org/bluewind/authclient/util/AuthUtil.java:109-116 | under AND the check passes iff every listed code is held |
| AuthChecks.EmptyOrDenies | src/main/java/org/bluewind/authclient/util/AuthUtil.java:101-108 | an OR requirement with no codes denies |
| AuthChecks.EmptyAndAllows | src/main/java/org/bluewind/authclient/util/AuthUtil.java:109-116 | an AND requirement with no codes allows |
| AuthChecks.UnknownOperatorDenies | src/main/java/org/bluewind/authclient/util/AuthUtil.java:117-119 | an operator other than OR and AND denies |
| AuthChecks.NullSetIsEmpty | src/main/java/org/bluewind/authclient/util/AuthUtil.java:84-87 | a null entitlement set decides exactly like the empty set |
| AuthChecks.MoreEntitlementsNeverHurt | src/main/java/org/bluewind/authclient/util/AuthUtil.java:99-119 | holding more codes never turns an allowed caller away |
| AuthChecks.CheckIgnore | src/main/java/org/bluewind/authclient/util/AuthUtil.java:65-73 | checkIgnore holds iff the method or its declaring class carries @Ignore |
| AuthChecks.HeaderPreferred | src/main/java/org/bluewind/authclient/util/AuthUtil.java:45-56 | a header that is not blank is the token |
| AuthChecks.CookieFallback | src/main/java/org/bluewind/authclient/util/AuthUtil.java:48-51 | a null or blank header falls back to the cookie |
| AuthChecks.GetToken | src/main/java/org/bluewind/authclient/util/AuthUtil.java:45-56 | a null request gives no token; otherwise the token is a non-blank header or the cookie |
| Interceptors.SessionStore.GetSubject | tiny-security-core/src/main/java/org/tinycloud/security/interceptor/AuthenticeInterceptor.java:79 | getSubject returns the subject stored under the token, or null when there is none |
| Interceptors.SessionStore.RefreshToken | tiny-security-core/src/main/java/org/tinycloud/security/interceptor/AuthenticeInterceptor.java:90 | refreshToken may fail and then changes nothing; it succeeds only for a token with a session, and then stores the refreshed subject under it and changes nothing else |
| Interceptors.LoginIdHolder.SetLoginId | tiny-security-core/src/main/java/org/tinycloud/security/interceptor/AuthenticeInterceptor.java:93 | the holder then holds the login id |
| Interceptors.LoginIdHolder.ClearLoginId | tiny-security-core/src/main/java/org/tinycloud/security/interceptor/AuthenticeInterceptor.java:113 | the holder is then empty |
| Interceptors.Classify | tiny-security-core/src/main/java/org/tinycloud/security/interceptor/AuthenticeInterceptor.java:53-96 | when the request reaches the authenticated branch, its token is non-null and stored, with that subject |
| Interceptors.SlidExpiry | tiny-security-core/src/main/java/org/tinycloud/security/interceptor/AuthenticeInterceptor.java:86-90 | the expiry after preHandle is either the old one or now plus the timeout |
| Interceptors.MillsCritical | tiny-security-core/src/main/java/org/tinycloud/security/interceptor/AuthenticeInterceptor.java:85-86 | the refresh threshold is at most the timeout in milliseconds, and below it for a positive timeout |
| Interceptors.AuthenticeInterceptor.constructor | tiny-security-core/src/main/java/org/tinycloud/security/interceptor/AuthenticeInterceptor.java:42-44 | the interceptor holds the given provider |
| Interceptors.AuthenticeInterceptor.SetAuthProvider | tiny-security-core/src/main/java/org/tinycloud/security/interceptor/AuthenticeInterceptor.java:37-39 | the provider is replaced |
| Interceptors.AuthenticeInterceptor.PreHandle | tiny-security-core/src/main/java/org/tinycloud/security/interceptor/AuthenticeInterceptor.java:52-97 | per branch: which result it returns or throws, whether status 200 is set and the new holder (the login id only in the authenticated branch, whether or not the refresh succeeded); the store is unchanged outside the authenticated branch, and in it either unchanged or holding the session with its slid expiry |
| Interceptors.AuthenticeInterceptor.AfterCompletion | tiny-security-core/src/main/java/org/tinycloud/security/interceptor/AuthenticeInterceptor.java:111-114 | the holder is empty afterwards |
| Interceptors.RejectedIff | tiny-security-core/src/main/java/org/tinycloud/security/interceptor/AuthenticeInterceptor.java:72-81 | preHandle throws exactly for a checked handler whose token is empty or has no stored session |
| Interceptors.DecidedBeforeLookup | tiny-security-core/src/main/java/org/tinycloud/security/interceptor/AuthenticeInterceptor.java:54-76 | non-handlers, OPTIONS requests, ignored handlers and empty tokens are decided without the store |
| Interceptors.StoredSessionPasses | tiny-security-core/src/main/java/org/tinycloud/security/interceptor/AuthenticeInterceptor.java:79-96 | a non-empty stored token on a checked handler is always authenticated with its stored subject |
| Interceptors.RefreshNeverShortens | tiny-security-core/src/main/java/org/tinycloud/security/interceptor/AuthenticeInterceptor.java:83-91 | when the threshold is within the timeout, the refresh never moves the expiry earlier |
| Interceptors.SessionOutlivesThreshold | tiny-security-core/src/main/java/org/tinycloud/security/interceptor/AuthenticeInterceptor.java:83-91 | after preHandle more than the threshold remains, when the threshold is below the timeout |
| Interceptors.RefreshSettles | tiny-security-core/src/main/java/org/tinycloud/security/interceptor/AuthenticeInterceptor.java:87-91 | a second request at the same instant does not refresh again |
| Interceptors.RefreshIff | tiny-security-core/src/main/java/org/tinycloud/security/interceptor/AuthenticeInterceptor.java:87-89 | the expiry becomes now plus the timeout iff the remaining time is at most the threshold, or it already was that |
| Interceptors.ConfiguredRefresh | tiny-security-core/src/main/java/org/tinycloud/security/interceptor/AuthenticeInterceptor.java:83-91 | with the threshold sixty percent of a positive timeout, the session outlives the threshold after preHandle, a second request at once does not refresh again, and a refresh happens exactly when at most the threshold remains |
| UlidAlphabet.LowerAscending | tiny-security-core/src/main/java/org/tinycloud/security/util/idgen/ulid/Ulid.java:77 | the lower-case alphabet is in ascending character order |
| UlidOrder.DigitsOrder | tiny-security-core/src/main/java/org/tinycloud/security/util/idgen/ulid/Ulid.java:716-754 | base-32 digit sequences of equal length are equal iff their numbers are, and come first in dictionary order iff their number is smaller |
| UlidOrder.ChunkValue | tiny-security-core/src/main/java/org/tinycloud/security/util/idgen/ulid/Ulid.java:734-752 | the eight digits written for a 40-bit random half, read in base 32, are its five low bytes read as a number |
| UlidOrder.TimeValue | tiny-security-core/src/main/java/org/tinycloud/security/util/idgen/ulid/Ulid.java:722-732 | the ten digits written for a 48-bit time, read in base 32, are its six bytes read as a number |
| UlidOrder.ValueOfParts | tiny-security-core/src/main/java/org/tinycloud/security/util/idgen/ulid/Ulid.java:716-754 | the 128-bit value of a ULID is its time, then its two 40-bit random halves, as one number |
| UlidOrder.DigitsValue | tiny-security-core/src/main/java/org/tinycloud/security/util/idgen/ulid/Ulid.java:716-754 | the 26 digits toString writes, read in base 32, are the unsigned 128-bit value of the ULID |
| UlidOrder.SpellingOrder | tiny-security-core/src/main/java/org/tinycloud/security/util/idgen/ulid/Ulid.java:716-754 | in an alphabet in ascending order, the spelled strings compare character by character as the digit sequences do |
| UlidOrder.SpellingSortsByValue | tiny-security-core/src/main/java/org/tinycloud/security/util/idgen/ulid/Ulid.java:716-754 | in an alphabet in ascending order, one spelled ULID precedes another as a string iff its 128-bit value is smaller |
| UlidOrder.StringOrder | tiny-security-core/src/main/java/org/tinycloud/security/util/idgen/ulid/Ulid.java:692-754 | toString(u) precedes toString(v) in string order iff compareTo(u, v) < 0 |
| UlidOrder.LowerCaseOrder | tiny-security-core/src/main/java/org/tinycloud/security/util/idgen/ulid/Ulid.java:692-754 | toLowerCase(u) precedes toLowerCase(v) in string order iff compareTo(u, v) < 0 |

## Left out

- Ulid.fast() is left out: it reads the system clock and ThreadLocalRandom.
- getInstant() and getInstant(String) are left out: they build java.time.Instant values.
- toUuid(), from(UUID), hashCode() and the Serializable machinery are left out: they are library glue.
- The copy constructor Ulid(Ulid) and Ulid(long, long) are the datatype constructor `Ulid(msb, lsb)` itself.
- getMostSignificantBits and getLeastSignificantBits are the datatype fields `msb` and `lsb`.
- Equals: only another ULID or null is modelled as the argument; an object of another class, which equals() also rejects, is not.
- `AuthUtil.getToken(String)` is left out: it reads the current request from Spring's RequestContextHolder. `CookieUtil` is not part of this model, so the cookie value is an input.
- GetToken: of the exceptions `getToken` catches, only the null request is modelled. Exceptions `CookieUtil` might throw are not.
- Reflection (`getAnnotation`) is replaced by `Option` inputs for the method's and the class's annotation.
- PreHandle: `millsCritical` is a parameter. The double arithmetic of `Math.floor(timeout * 1000L * 0.6)` is not modelled; MillsCritical gives its exact-arithmetic value.
- PreHandle: the current time and the configured timeout are parameters; `System.currentTimeMillis()` and `GlobalConfigUtils` are not part of this model.
- PreHandle: times are unbounded integers. The 64-bit overflow of `expireTime - currentTime` and of `currentTime + timeout * 1000L` is not modelled.
- PreHandle: the token is an input field of the request. The provider's `getToken(request)` is not part of this model.
- The `AuthProvider` interface and its implementations are not part of this model. SessionStore stands for it: GetSubject reads a stored session and RefreshToken writes the refreshed subject back. Whether an expired session is still returned by getSubject is up to the provider; the interceptor itself does not check expiry.
- `AuthenticeHolder` is a thread-local in the source. Here it is one shared LoginIdHolder object, so concurrent requests are not modelled.
- postHandle is left out: it does nothing.
- The response of an OPTIONS request is modelled only as the status it is given.
- RefreshToken: why a store fails is not modelled. A failure is a free choice, as a database error in the JDBC provider would be; the JDBC provider also reports failure for an unknown token, which the model follows.
- PreHandle: the source sets the new expiry on the subject object it got from the provider before calling refreshToken. A provider that hands out its stored object would then see the new expiry even when refreshToken fails; the model's store holds values, so only a successful refresh changes it.
