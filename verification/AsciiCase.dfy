/** Comparing names without regard to the case of ASCII letters. */
module AsciiCase {

  function Lower(c: char): char {
    if 'A' <= c <= 'Z' then ((c as int) + 32) as char else c
  }

  function Lowered(s: string): (t: string)
    ensures |t| == |s| && forall i :: 0 <= i < |s| ==> t[i] == Lower(s[i])
  {
    seq(|s|, i requires 0 <= i < |s| => Lower(s[i]))
  }

  predicate EqIgnoreCase(s: string, t: string) {
    Lowered(s) == Lowered(t)
  }

  /** The same character, or the two cases of an ASCII letter. */
  predicate SameLetter(a: char, b: char) {
    || a == b
    || ('A' <= a <= 'Z' && b as int == a as int + 32)
    || ('A' <= b <= 'Z' && a as int == b as int + 32)
  }

  /** Names are equal without regard to case exactly if they are so letter by letter; other characters, of other
      alphabets too, have to be the same. */
  lemma EqualLetterByLetter(s: string, t: string)
    ensures EqIgnoreCase(s, t) <==> |s| == |t| && forall i :: 0 <= i < |s| ==> SameLetter(s[i], t[i])
  {
    if EqIgnoreCase(s, t) {
      forall i | 0 <= i < |s| ensures SameLetter(s[i], t[i]) {
        assert Lowered(s)[i] == Lowered(t)[i];
      }
    }
  }
}
