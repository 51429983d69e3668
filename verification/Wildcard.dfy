/**
 Include patterns: the glob matcher that selects files for `include` directives.
 The meaning of a pattern is given by `Matches`, in which `*` stands for any run of
 characters; the program fills a table over prefixes instead.
 */
module Wildcard {
  import Ascii

  /** The meaning of a pattern, read from the left: `*` takes some prefix of the text. */
  ghost predicate Matches(pattern: string, text: string)
    decreases |pattern|
  {
    if pattern == "" then text == ""
    else if pattern[0] == '*' then
      exists k :: 0 <= k <= |text| && Matches(pattern[1..], text[k..])
    else
      text != "" && Accepts(pattern[0], text[0]) && Matches(pattern[1..], text[1..])
  }

  /** Whether a pattern character other than `*` accepts a text character. */
  predicate Accepts(p: char, c: char) {
    p == '?' || p == c
  }

  /** Without a star a pattern matches character by character, a question mark any character. */
  lemma {:induction false} MatchesWithoutStar(pattern: string, text: string)
    requires '*' !in pattern
    ensures Matches(pattern, text) <==>
            |pattern| == |text| && forall i :: 0 <= i < |text| ==> pattern[i] == '?' || pattern[i] == text[i]
    decreases |pattern|
  {
    if pattern != "" && text != "" {
      var p, t := pattern[1..], text[1..];
      MatchesWithoutStar(p, t);
      assert forall i :: 0 <= i < |t| && i < |p| ==> p[i] == pattern[i + 1] && t[i] == text[i + 1];
      assert forall i :: 0 < i < |text| && i < |pattern| ==> pattern[i] == p[i - 1] && text[i] == t[i - 1];
    }
  }

  /** Whether some cut of the text gives its two parts to the two patterns. */
  ghost predicate Splits(p: string, q: string, text: string) {
    exists k :: 0 <= k <= |text| && Matches(p, text[..k]) && Matches(q, text[k..])
  }

  /** Concatenation law: a concatenated pattern matches exactly the concatenated texts. */
  lemma {:induction false} MatchesConcat(p: string, q: string, text: string)
    ensures Matches(p + q, text) <==> Splits(p, q, text)
    decreases |p|
  {
    if p == "" {
      assert p + q == q;
      assert text[0..] == text && text[..0] == "";
      assert Matches(q, text) ==> Matches(p, text[..0]) && Matches(q, text[0..]);
    } else {
      assert (p + q)[1..] == p[1..] + q;
      if p[0] == '*' {
        StarConcat(p, q, text);
      } else if text != "" {
        MatchesConcat(p[1..], q, text[1..]);
        CharConcat(p, q, text);
      }
    }
  }

  lemma CharConcat(p: string, q: string, text: string)
    requires p != "" && p[0] != '*' && text != ""
    ensures Splits(p, q, text) <==> Accepts(p[0], text[0]) && Splits(p[1..], q, text[1..])
  {
    if Splits(p, q, text) {
      var k :| 0 <= k <= |text| && Matches(p, text[..k]) && Matches(q, text[k..]);
      assert text[..k][1..] == text[1..][..k - 1] && text[k..] == text[1..][k - 1..];
    }
    if Accepts(p[0], text[0]) && Splits(p[1..], q, text[1..]) {
      var k :| 0 <= k <= |text| - 1 && Matches(p[1..], text[1..][..k]) && Matches(q, text[1..][k..]);
      assert text[..k + 1][1..] == text[1..][..k] && text[k + 1..] == text[1..][k..];
    }
  }

  lemma StarConcat(p: string, q: string, text: string)
    requires p != "" && p[0] == '*' && (p + q)[1..] == p[1..] + q
    ensures Matches(p + q, text) <==> Splits(p, q, text)
    decreases |p|, 0
  {
    if Matches(p + q, text) {
      var k :| 0 <= k <= |text| && Matches(p[1..] + q, text[k..]);
      MatchesConcat(p[1..], q, text[k..]);
      var j :| 0 <= j <= |text[k..]| && Matches(p[1..], text[k..][..j]) && Matches(q, text[k..][j..]);
      assert text[..k + j][k..] == text[k..][..j] && text[k + j..] == text[k..][j..];
      assert Matches(p, text[..k + j]);
    }
    if Splits(p, q, text) {
      var k :| 0 <= k <= |text| && Matches(p, text[..k]) && Matches(q, text[k..]);
      var j :| 0 <= j <= |text[..k]| && Matches(p[1..], text[..k][j..]);
      assert text[..k][j..] == text[j..][..k - j] && text[k..] == text[j..][k - j..];
      MatchesConcat(p[1..], q, text[j..]);
      assert Matches((p + q)[1..], text[j..]);
    }
  }

  lemma MatchesOne(p: char, text: string)
    ensures p == '*' ==> Matches([p], text)
    ensures p != '*' ==> (Matches([p], text) <==> |text| == 1 && Accepts(p, text[0]))
  {
    assert [p][1..] == "";
    assert text[|text|..] == "";
    assert Matches("", text[|text|..]);
  }

  lemma StarLast(p: string, text: string)
    ensures text == "" ==> (Matches(p + "*", text) <==> Matches(p, ""))
    ensures text != "" ==>
              (Matches(p + "*", text) <==> Matches(p, text) || Matches(p + "*", text[..|text| - 1]))
  {
    hide Matches, Splits;
    MatchesConcat(p, "*", text);
    StarSplits(p, text);
    assert text[..|text|] == text;
    if text != "" {
      var front := text[..|text| - 1];
      MatchesConcat(p, "*", front);
      StarSplits(p, front);
      assert forall k :: 0 <= k <= |front| ==> front[..k] == text[..k];
    }
  }

  lemma StarSplits(p: string, text: string)
    ensures Splits(p, "*", text) <==> exists k :: 0 <= k <= |text| && Matches(p, text[..k])
  {
    forall k | 0 <= k <= |text| ensures Matches("*", text[k..]) {
      MatchesOne('*', text[k..]);
    }
  }

  lemma CharLast(p: string, last: char, text: string)
    requires last != '*'
    ensures Matches(p + [last], text) <==>
            text != "" && Accepts(last, text[|text| - 1]) && Matches(p, text[..|text| - 1])
  {
    MatchesConcat(p, [last], text);
    forall k | 0 <= k <= |text|
      ensures Matches([last], text[k..]) <==> k == |text| - 1 && Accepts(last, text[k])
    {
      MatchesOne(last, text[k..]);
    }
  }

  /** What the table cell in row `i`, column `j` stands for: the two prefixes match. */
  ghost predicate Cell(pattern: string, text: string, i: nat, j: nat)
    requires i <= |pattern| && j <= |text|
  {
    Matches(pattern[..i], text[..j])
  }

  /** The recurrence of the table, read off the last character of each prefix. */
  lemma CellStep(pattern: string, text: string, i: nat, j: nat)
    requires 1 <= i <= |pattern| && j <= |text|
    ensures j == 0 ==> (Cell(pattern, text, i, 0) <==> pattern[i - 1] == '*' && Cell(pattern, text, i - 1, 0))
    ensures j > 0 && pattern[i - 1] == '*' ==>
              (Cell(pattern, text, i, j) <==> Cell(pattern, text, i - 1, j) || Cell(pattern, text, i, j - 1))
    ensures j > 0 && pattern[i - 1] != '*' ==>
              (Cell(pattern, text, i, j) <==>
               Accepts(pattern[i - 1], text[j - 1]) && Cell(pattern, text, i - 1, j - 1))
  {
    var p, last := pattern[..i - 1], pattern[i - 1];
    assert pattern[..i] == p + [last];
    assert j > 0 ==> text[..j][..j - 1] == text[..j - 1];
    if last == '*' {
      StarLast(p, text[..j]);
    } else {
      CharLast(p, last, text[..j]);
    }
  }

  /** The program's matcher; on Windows both sides are lowercased first. */
  method WildcardMatch(pattern0: string, text0: string, windows: bool) returns (matched: bool)
    ensures matched <==>
            if windows then Matches(Ascii.Lower(pattern0), Ascii.Lower(text0)) else Matches(pattern0, text0)
  {
    var pattern, text := pattern0, text0;
    if windows {
      pattern, text := Ascii.Lower(pattern0), Ascii.Lower(text0);
    }
    var dp := new bool[|pattern| + 1, |text| + 1]((_, _) => false);
    dp[0, 0] := true;
    for i := 1 to |pattern| + 1
      invariant forall c :: 0 <= c <= |text| ==> dp[0, c] == Cell(pattern, text, 0, c)
      invariant forall r :: 0 <= r < i ==> dp[r, 0] == Cell(pattern, text, r, 0)
      invariant forall r :: i <= r <= |pattern| ==> !dp[r, 0]
    {
      CellStep(pattern, text, i, 0);
      if pattern[i - 1] == '*' {
        dp[i, 0] := dp[i - 1, 0];
      }
    }
    for i := 1 to |pattern| + 1
      invariant forall r, c :: 0 <= r < i && 0 <= c <= |text| ==> dp[r, c] == Cell(pattern, text, r, c)
      invariant forall r :: i <= r <= |pattern| ==> dp[r, 0] == Cell(pattern, text, r, 0)
    {
      for j := 1 to |text| + 1
        invariant forall r, c :: 0 <= r < i && 0 <= c <= |text| ==> dp[r, c] == Cell(pattern, text, r, c)
        invariant forall c :: 0 <= c < j ==> dp[i, c] == Cell(pattern, text, i, c)
        invariant forall r :: i <= r <= |pattern| ==> dp[r, 0] == Cell(pattern, text, r, 0)
      {
        CellStep(pattern, text, i, j);
        dp[i, j] :=
          if pattern[i - 1] == '*' then dp[i - 1, j] || dp[i, j - 1]
          else if pattern[i - 1] == '?' then dp[i - 1, j - 1]
          else pattern[i - 1] == text[j - 1] && dp[i - 1, j - 1];
      }
    }
    assert pattern[..|pattern|] == pattern && text[..|text|] == text;
    matched := dp[|pattern|, |text|];
  }
}
