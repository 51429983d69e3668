/** ASCII case folding, shared by host names, cache keys and Windows file names. */
module Ascii {

  function LowerChar(c: char): char {
    if 'A' <= c <= 'Z' then c + 32 as char else c
  }

  function Lower(s: string): (r: string)
    ensures |r| == |s|
  {
    seq(|s|, i requires 0 <= i < |s| => LowerChar(s[i]))
  }

  predicate EqIgnoreCase(a: string, b: string) {
    Lower(a) == Lower(b)
  }

  /** Two characters that are the same or are the two cases of one ASCII letter. */
  predicate SameLetter(x: char, y: char) {
    x == y || ('A' <= x <= 'Z' && y as int == x as int + 32) || ('A' <= y <= 'Z' && x as int == y as int + 32)
  }

  ghost predicate SameUpToCase(a: string, b: string) {
    |a| == |b| && forall i :: 0 <= i < |a| ==> SameLetter(a[i], b[i])
  }

  /** Folding identifies exactly the strings that differ in the case of ASCII letters. */
  lemma FoldingIsCase(a: string, b: string)
    ensures Lower(a) == Lower(b) <==> SameUpToCase(a, b)
  {
    if Lower(a) == Lower(b) {
      assert |a| == |b|;
      forall i | 0 <= i < |a| ensures SameLetter(a[i], b[i]) {
        assert Lower(a)[i] == LowerChar(a[i]) && Lower(b)[i] == LowerChar(b[i]);
      }
    }
  }

  /** What is folded has no upper-case letter, and lower-case text is folded already. */
  lemma FoldedIsLower(a: string)
    ensures forall i :: 0 <= i < |a| ==> !('A' <= Lower(a)[i] <= 'Z')
    ensures Lower(a) == a <==> forall i :: 0 <= i < |a| ==> !('A' <= a[i] <= 'Z')
  {
    if Lower(a) == a {
      forall i | 0 <= i < |a| ensures !('A' <= a[i] <= 'Z') {
        assert Lower(a)[i] == LowerChar(a[i]);
      }
    }
  }
}
