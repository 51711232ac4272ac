// The case of ASCII letters.
module LetterCase {
  predicate IsUpper(c: char) { 'A' <= c <= 'Z' }

  predicate IsLower(c: char) { 'a' <= c <= 'z' }

  function LowerChar(c: char): (r: char)
    ensures !IsUpper(c) ==> r == c
    ensures IsUpper(c) ==> IsLower(r)
  {
    if IsUpper(c) then (c as int + 32) as char else c
  }

  // strings.ToLower on ASCII letters.
  function Lower(w: string): (r: string)
    ensures |r| == |w|
    ensures forall i :: 0 <= i < |w| ==> r[i] == LowerChar(w[i])
  {
    if w == "" then "" else [LowerChar(w[0])] + Lower(w[1..])
  }

  lemma LowerIdempotent(w: string)
    ensures Lower(Lower(w)) == Lower(w)
  {
  }

  // ---------------------------------------------------------------- the alphabet

  const CAPITALS := "ABCDEFGHIJKLMNOPQRSTUVWXYZ"

  const LETTERS := "abcdefghijklmnopqrstuvwxyz"

  // The one is the other, or its capital letter.
  predicate CapitalOf(c: char, letter: char) {
    exists k :: 0 <= k < 26 && CAPITALS[k] == c && LETTERS[k] == letter
  }

  // v is w written with any of its letters as capitals.
  predicate Capitalized(v: string, w: string) {
    |v| == |w| && forall i :: 0 <= i < |w| ==> v[i] == w[i] || CapitalOf(v[i], w[i])
  }

  lemma LetterAt(k: nat)
    requires k < 26
    ensures CAPITALS[k] as int == 'A' as int + k && LETTERS[k] as int == 'a' as int + k
  {
  }

  // A letter's lower case is the letter at its place in the alphabet.
  lemma LowerCharIs(c: char)
    ensures forall k :: 0 <= k < 26 && CAPITALS[k] == c ==> LowerChar(c) == LETTERS[k]
    ensures (forall k :: 0 <= k < 26 ==> CAPITALS[k] != c) ==> LowerChar(c) == c
    ensures LowerChar(c) != c ==> CapitalOf(c, LowerChar(c))
  {
    hide CAPITALS, LETTERS;
    AlphabetLength();
    forall k: nat | k < 26
      ensures CAPITALS[k] as int == 'A' as int + k && LETTERS[k] as int == 'a' as int + k
    {
      LetterAt(k);
    }
    if IsUpper(c) {
      var k := c as int - 'A' as int;
      assert CAPITALS[k] == c && LETTERS[k] == LowerChar(c);
    }
  }

  lemma AlphabetLength()
    ensures |CAPITALS| == 26 && |LETTERS| == 26
  {
  }

  // The lower case of a word written with capitals is the word.
  lemma LowerOfCapitalized(v: string, w: string)
    requires Capitalized(v, w) && forall i :: 0 <= i < |w| ==> !IsUpper(w[i])
    ensures Lower(v) == w
  {
    hide CAPITALS, LETTERS, Lower;
    AlphabetLength();
    forall i | 0 <= i < |w|
      ensures LowerChar(v[i]) == w[i]
    {
      LowerCharIs(v[i]);
    }
    SameChars(v, w);
  }

  lemma SameChars(v: string, w: string)
    requires |v| == |w| && forall i :: 0 <= i < |w| ==> LowerChar(v[i]) == w[i]
    ensures Lower(v) == w
  {
  }

  lemma CapitalizedOfLower(v: string)
    ensures Capitalized(v, Lower(v))
  {
    hide CAPITALS, LETTERS, CapitalOf;
    forall i | 0 <= i < |v|
      ensures v[i] == Lower(v)[i] || CapitalOf(v[i], Lower(v)[i])
    {
      LowerCharIs(v[i]);
    }
  }
}
