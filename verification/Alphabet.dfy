/** The alphabet of every identifier that crosses a domain boundary. */
module Alphabet {

  const LETTERS: string := "abcdefghijklmnopqrstuvwxyz0123456789-"

  predicate InAlphabet(byte: nat) {
    'a' as nat <= byte <= 'z' as nat || '0' as nat <= byte <= '9' as nat || byte == '-' as nat
  }

  function Code(k: nat): nat {
    if k < 26 then 97 + k else if k < 36 then 22 + k else 45
  }

  lemma LettersInOrder(k: nat)
    requires k < |LETTERS|
    ensures LETTERS[k] as nat == Code(k)
  {
  }

  /** The ranges name exactly these thirty-seven characters. */
  lemma AlphabetIsTheList(byte: nat)
    ensures InAlphabet(byte) <==> exists k :: 0 <= k < |LETTERS| && LETTERS[k] as nat == byte
  {
    if InAlphabet(byte) {
      var k := if byte >= 97 then byte - 97 else if byte >= 48 then byte - 22 else 36;
      LettersInOrder(k);
      assert LETTERS[k] as nat == byte;
    }
    forall k | 0 <= k < |LETTERS| ensures InAlphabet(LETTERS[k] as nat) { LettersInOrder(k); }
  }
}
