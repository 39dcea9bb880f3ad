/** `generate_reference_code` (calliope.py:66-70): `length` independent
    `random.choice` draws from `string.ascii_uppercase + string.digits`,
    joined in order.  The draws are an input: each is the index of the
    character chosen. */
module ReferenceCode {

  const Alphabet: string := "ABCDEFGHIJKLMNOPQRSTUVWXYZ0123456789"

  /** The default `length=10`. */
  const DefaultLength: nat := 10

  /** One `random.choice(characters)`, as the index of the chosen character. */
  newtype Choice = i: int | 0 <= i < 36

  /** The draws of one call with the default length. */
  type Draws = s: seq<Choice> | |s| == DefaultLength witness seq(10, _ => 0 as Choice)

  predicate IsCodeChar(c: char) {
    'A' <= c <= 'Z' || '0' <= c <= '9'
  }

  /** `Alphabet` is the 26 capitals followed by the ten digits. */
  lemma AlphabetLayout()
    ensures |Alphabet| == 36
    ensures forall i | 0 <= i < 26 :: Alphabet[i] as int == 'A' as int + i
    ensures forall i | 26 <= i < 36 :: Alphabet[i] as int == '0' as int + (i - 26)
  {
  }

  /** The index of a code character in `Alphabet`. */
  function IndexOf(c: char): (i: Choice)
    requires IsCodeChar(c)
    ensures Alphabet[i] == c
  {
    AlphabetLayout();
    if 'A' <= c <= 'Z' then (c as int - 'A' as int) as Choice else (c as int - '0' as int + 26) as Choice
  }

  /** The code: the chosen characters in the order of the draws. */
  function GenerateReferenceCode(choices: seq<Choice>): (code: string)
    ensures |code| == |choices|
    ensures forall i | 0 <= i < |code| :: IsCodeChar(code[i])
  {
    AlphabetLayout();
    seq(|choices|, i requires 0 <= i < |choices| => Alphabet[choices[i]])
  }

  /** Every string of capitals and digits is the code of exactly one
      sequence of draws: the generator reaches all of A-Z0-9 and different
      draws never give the same code. */
  lemma CodesAreExactlyTheDraws(code: string)
    requires forall i | 0 <= i < |code| :: IsCodeChar(code[i])
    ensures var choices := seq(|code|, i requires 0 <= i < |code| => IndexOf(code[i]));
            GenerateReferenceCode(choices) == code
  {
  }

  lemma GenerateInjective(a: seq<Choice>, b: seq<Choice>)
    requires GenerateReferenceCode(a) == GenerateReferenceCode(b)
    ensures a == b
  {
    AlphabetLayout();
    assert |a| == |b|;
    forall i | 0 <= i < |a| ensures a[i] == b[i] {
      assert GenerateReferenceCode(a)[i] == Alphabet[a[i]];
      assert GenerateReferenceCode(b)[i] == Alphabet[b[i]];
    }
  }
}
