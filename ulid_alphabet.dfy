/**
 * The character tables of Ulid.java: the upper- and lower-case Crockford
 * Base 32 alphabets and the 256-entry decoding table ALPHABET_VALUES that
 * the class's static initializer fills.
 */
module UlidAlphabet {

  /** ALPHABET_UPPERCASE: digit value i is written as Upper[i]. */
  const Upper: string := "0123456789ABCDEFGHJKMNPQRSTVWXYZ"

  /** ALPHABET_LOWERCASE: digit value i is written as Lower[i]. */
  const Lower: string := "0123456789abcdefghjkmnpqrstvwxyz"

  /** The letters Crockford's decoder reads as digits 0 and 1. */
  const Aliases: string := "OILoil"

  /** Size of the decoding table: one entry per 8-bit character code. */
  const TableSize: nat := 256

  /**
   * The value Crockford's Base 32 decoding gives a character, or -1 when the
   * character is not a Base 32 digit. Letters are read case-insensitively,
   * O reads as 0, I and L read as 1, and U is not a digit.
   */
  function AlphabetValue(c: char): (v: int)
    ensures -1 <= v < 32
  {
    if '0' <= c <= '9' then c as int - '0' as int
    else if 'A' <= c <= 'Z' then LetterValue(c as int - 'A' as int)
    else if 'a' <= c <= 'z' then LetterValue(c as int - 'a' as int)
    else -1
  }

  /** The value of the k-th letter of the Latin alphabet (A is 0). */
  function LetterValue(k: int): (v: int)
    requires 0 <= k < 26
    ensures -1 <= v < 32
  {
    if k <= 7 then k + 10         // A..H are 10..17
    else if k == 8 then 1         // I
    else if k <= 10 then k + 9    // J, K are 18, 19
    else if k == 11 then 1        // L
    else if k <= 13 then k + 8    // M, N are 20, 21
    else if k == 14 then 0        // O
    else if k <= 19 then k + 7    // P..T are 22..26
    else if k == 20 then -1       // U is not a digit
    else k + 6                    // V..Z are 27..31
  }

  /** The upper-case alphabet spells out the digits 0..31 in order, in 8-bit characters. */
  lemma UpperDecodes()
    ensures |Upper| == 32
    ensures forall i :: 0 <= i < 32 ==> AlphabetValue(Upper[i]) == i && Upper[i] as int < TableSize
  {
  }

  /** The lower-case alphabet spells out the digits 0..31 in order, in 8-bit characters. */
  lemma LowerDecodes()
    ensures |Lower| == 32
    ensures forall i :: 0 <= i < 32 ==> AlphabetValue(Lower[i]) == i && Lower[i] as int < TableSize
  {
  }

  /** The upper-case alphabet is in ascending character order. */
  lemma UpperAscending()
    ensures forall i, j :: 0 <= i < j < 32 ==> Upper[i] < Upper[j]
  {
  }

  /** The lower-case alphabet is in ascending character order too. */
  lemma LowerAscending()
    ensures forall i, j :: 0 <= i < j < 32 ==> Lower[i] < Lower[j]
  {
  }

  /** Every character with a digit value is an alphabet character or an alias. */
  lemma AlphabetValueCovered()
    ensures forall c: char :: AlphabetValue(c) != -1 ==> c in Upper || c in Lower || c in Aliases
  {
  }

  /**
   * The table `values` holds, for each code, the digit value of that
   * character if the character is among `entered`, and -1 otherwise.
   */
  ghost predicate Filled(values: seq<int>, entered: string)
  {
    |values| == TableSize &&
    forall c :: 0 <= c < TableSize ==>
      values[c] == if c as char in entered then AlphabetValue(c as char) else -1
  }

  /** Entering one more character with its digit value keeps the table filled. */
  lemma {:induction false} FilledStep(values: seq<int>, entered: string, ch: char, v: int)
    requires Filled(values, entered)
    requires ch as int < TableSize && AlphabetValue(ch) == v
    ensures Filled(values[ch as int := v], entered + [ch])
  {
    var values' := values[ch as int := v];
    forall c | 0 <= c < TableSize
      ensures values'[c] == if c as char in entered + [ch] then AlphabetValue(c as char) else -1
    {
      if c == ch as int {
        assert c as char == ch;
      } else {
        assert c as char != ch;
      }
    }
  }

  /** A table filled with every digit character agrees with AlphabetValue. */
  lemma FilledComplete(values: seq<int>)
    requires Filled(values, Upper + Lower + Aliases)
    ensures forall c :: 0 <= c < TableSize ==> values[c] == AlphabetValue(c as char)
  {
    AlphabetValueCovered();
  }

  /**
   * One of the static initializer's two loops: enter every character of an
   * alphabet with its index as value.
   */
  method EnterAlphabet(values: array<int>, alphabet: string, ghost entered: string)
    requires values.Length == TableSize && Filled(values[..], entered)
    requires forall i :: 0 <= i < |alphabet| ==> AlphabetValue(alphabet[i]) == i && alphabet[i] as int < TableSize
    modifies values
    ensures Filled(values[..], entered + alphabet)
  {
    assert entered + alphabet[..0] == entered;
    for i := 0 to |alphabet|
      invariant Filled(values[..], entered + alphabet[..i])
    {
      FilledStep(values[..], entered + alphabet[..i], alphabet[i], i);
      assert entered + alphabet[..i + 1] == entered + alphabet[..i] + [alphabet[i]];
      values[alphabet[i] as int] := i;
    }
    assert alphabet[..|alphabet|] == alphabet;
  }

  /** One of the alias assignments: enter a character with its digit value. */
  method EnterAlias(values: array<int>, ch: char, v: int, ghost entered: string)
    requires values.Length == TableSize && Filled(values[..], entered)
    requires ch as int < TableSize && AlphabetValue(ch) == v
    modifies values
    ensures Filled(values[..], entered + [ch])
  {
    FilledStep(values[..], entered, ch, v);
    values[ch as int] := v;
  }

  /** Arrays.fill(ALPHABET_VALUES, -1): a table with no character entered. */
  method NewTable() returns (values: array<int>)
    ensures fresh(values) && values.Length == TableSize
    ensures Filled(values[..], [])
  {
    values := new int[TableSize](_ => -1);
  }

  /** The two alphabet loops of the static initializer: upper case, then lower case. */
  method EnterAlphabets(values: array<int>)
    requires values.Length == TableSize && Filled(values[..], [])
    modifies values
    ensures Filled(values[..], Upper + Lower)
  {
    UpperDecodes();
    assert [] + Upper == Upper;
    EnterAlphabet(values, Upper, []);
    LowerDecodes();
    EnterAlphabet(values, Lower, Upper);
  }

  /** The alias assignments of the static initializer: O, I, L, then o, i, l. */
  method EnterAliases(values: array<int>)
    requires values.Length == TableSize && Filled(values[..], Upper + Lower)
    modifies values
    ensures Filled(values[..], Upper + Lower + Aliases)
  {
    ghost var entered := Upper + Lower;
    EnterAlias(values, 'O', 0, entered);
    entered := entered + ['O'];
    EnterAlias(values, 'I', 1, entered);
    entered := entered + ['I'];
    EnterAlias(values, 'L', 1, entered);
    entered := entered + ['L'];
    EnterAlias(values, 'o', 0, entered);
    entered := entered + ['o'];
    EnterAlias(values, 'i', 1, entered);
    entered := entered + ['i'];
    EnterAlias(values, 'l', 1, entered);
    entered := entered + ['l'];
    assert entered == Upper + Lower + Aliases;
  }

  /**
   * The static initializer of Ulid.java: fill the table with -1, enter the
   * upper-case alphabet, then the lower-case one, then the aliases O, I, L
   * in both cases. The result agrees with AlphabetValue on every 8-bit code.
   */
  method BuildAlphabetValues() returns (values: array<int>)
    ensures values.Length == TableSize
    ensures forall c :: 0 <= c < TableSize ==> values[c] == AlphabetValue(c as char)
  {
    values := NewTable();
    EnterAlphabets(values);
    EnterAliases(values);
    FilledComplete(values[..]);
  }
}
