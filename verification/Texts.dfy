/** Lines, trimming and splitting of text, as the standard string routines define them. */
module Texts {
  import opened Options

  /** The Unicode White_Space property. */
  predicate IsWhite(c: char) {
    var n := c as int;
    || 0x09 <= n <= 0x0D || n == 0x20 || n == 0x85 || n == 0xA0 || n == 0x1680
    || 0x2000 <= n <= 0x200A || n == 0x2028 || n == 0x2029 || n == 0x202F || n == 0x205F || n == 0x3000
  }

  function TrimStart(s: string): string {
    if s != "" && IsWhite(s[0]) then TrimStart(s[1..]) else s
  }

  function TrimEnd(s: string): string {
    if s != "" && IsWhite(s[|s| - 1]) then TrimEnd(s[..|s| - 1]) else s
  }

  function Trim(s: string): string {
    TrimEnd(TrimStart(s))
  }

  /** Neither end is white space; true of the empty text. */
  predicate Trimmed(s: string) {
    s != "" ==> !IsWhite(s[0]) && !IsWhite(s[|s| - 1])
  }

  lemma {:induction false} TrimStartIsSuffix(s: string)
    ensures var r := TrimStart(s); r != "" ==> !IsWhite(r[0]) && |r| <= |s| && r[|r| - 1] == s[|s| - 1]
  {
    if s != "" && IsWhite(s[0]) {
      TrimStartIsSuffix(s[1..]);
    }
  }

  lemma {:induction false} TrimEndIsPrefix(s: string)
    ensures var r := TrimEnd(s); r <= s && (r != "" ==> !IsWhite(r[|r| - 1]))
  {
    if s != "" && IsWhite(s[|s| - 1]) {
      TrimEndIsPrefix(s[..|s| - 1]);
    }
  }

  /** Trimming leaves trimmed text, and trimmed text as it is. */
  lemma TrimIsTrimmed(s: string)
    ensures Trimmed(Trim(s))
    ensures Trimmed(s) <==> Trim(s) == s
  {
    TrimStartIsSuffix(s);
    TrimEndIsPrefix(TrimStart(s));
  }

  predicate AllWhite(s: string) {
    forall i :: 0 <= i < |s| ==> IsWhite(s[i])
  }

  /** A text with white space around it, or none. */
  ghost predicate Padded(s: string, t: string) {
    exists a, b :: AllWhite(a) && AllWhite(b) && s == a + t + b
  }

  lemma {:induction false} TrimStartDrops(s: string) returns (a: string)
    ensures AllWhite(a) && s == a + TrimStart(s)
  {
    a := "";
    if s != "" && IsWhite(s[0]) {
      var rest := TrimStartDrops(s[1..]);
      a := [s[0]] + rest;
      assert s == [s[0]] + s[1..];
    }
  }

  lemma {:induction false} TrimEndDrops(s: string) returns (b: string)
    ensures AllWhite(b) && s == TrimEnd(s) + b
  {
    b := "";
    if s != "" && IsWhite(s[|s| - 1]) {
      var rest := TrimEndDrops(s[..|s| - 1]);
      b := rest + [s[|s| - 1]];
      assert s == s[..|s| - 1] + [s[|s| - 1]];
    }
  }

  lemma {:induction false} TrimStartSkips(a: string, s: string)
    requires AllWhite(a)
    ensures TrimStart(a + s) == TrimStart(s)
  {
    if a == "" {
      assert a + s == s;
    } else {
      assert (a + s)[1..] == a[1..] + s;
      TrimStartSkips(a[1..], s);
    }
  }

  lemma {:induction false} TrimEndSkips(s: string, b: string)
    requires AllWhite(b)
    ensures TrimEnd(s + b) == TrimEnd(s)
  {
    if b == "" {
      assert s + b == s;
    } else {
      var t := s + b;
      assert t[..|t| - 1] == s + b[..|b| - 1];
      TrimEndSkips(s, b[..|b| - 1]);
    }
  }

  /** Trimming gives the one trimmed text that the rest is only white space around. */
  lemma TrimIff(s: string, t: string)
    ensures Trim(s) == t <==> Trimmed(t) && Padded(s, t)
  {
    if Trim(s) == t {
      TrimIsTrimmed(s);
      var a := TrimStartDrops(s);
      var b := TrimEndDrops(TrimStart(s));
      assert s == a + t + b;
    } else if Trimmed(t) && Padded(s, t) {
      var a, b :| AllWhite(a) && AllWhite(b) && s == a + t + b;
      assert s == a + (t + b);
      TrimStartSkips(a, t + b);
      if t == "" {
        assert t + b == b && b == b + "";
        TrimStartSkips(b, "");
      } else {
        assert TrimStart(t + b) == t + b && TrimEnd(t) == t;
        TrimEndSkips(t, b);
      }
    }
  }

  /** White space at the end is trimmed away. */
  lemma {:induction false} TrimDropsEnd(s: string, c: char)
    requires IsWhite(c)
    ensures Trim(s + [c]) == Trim(s)
  {
    var t := s + [c];
    if s == "" {
      assert t[1..] == "";
    } else if IsWhite(s[0]) {
      assert t[1..] == s[1..] + [c];
      TrimDropsEnd(s[1..], c);
    } else {
      assert t[..|t| - 1] == s;
    }
  }

  /** The first place of a character, or the length. */
  function IndexOf(s: string, c: char): (i: nat)
    ensures i <= |s|
    ensures i < |s| ==> s[i] == c
    ensures c !in s[..i]
  {
    if s == "" || s[0] == c then 0
    else
      var i := IndexOf(s[1..], c);
      assert s[..i + 1] == [s[0]] + s[1..][..i];
      i + 1
  }

  lemma {:induction false} IndexOfFirst(a: string, c: char, b: string)
    requires c !in a
    ensures IndexOf(a + [c] + b, c) == |a|
  {
    var s := a + [c] + b;
    if a == "" {
      assert s[0] == c;
    } else {
      assert s[0] == a[0] && s[1..] == a[1..] + [c] + b;
      IndexOfFirst(a[1..], c, b);
    }
  }

  function SplitOnce(s: string, c: char): Option<(string, string)> {
    var i := IndexOf(s, c);
    if i == |s| then None else Some((s[..i], s[i + 1..]))
  }

  /** Splitting at the first separator undoes joining with one. */
  lemma SplitOnceUndoes(a: string, c: char, b: string)
    requires c !in a
    ensures SplitOnce(a + [c] + b, c) == Some((a, b))
  {
    IndexOfFirst(a, c, b);
    var s := a + [c] + b;
    assert s[..|a|] == a && s[|a| + 1..] == b;
  }

  function StripPrefix(s: string, prefix: string): Option<string> {
    if prefix <= s then Some(s[|prefix|..]) else None
  }

  // ---------------------------------------------------------------------------
  // Lines
  // ---------------------------------------------------------------------------

  function StripCr(l: string): string {
    if l != "" && l[|l| - 1] == '\r' then l[..|l| - 1] else l
  }

  /**
   A line ends at a line feed, with at most one carriage return before it. What follows the
   last line feed is a line of its own unless it is empty, and keeps its carriage return.
   */
  function Lines(text: string): seq<string>
    decreases |text|
  {
    if text == "" then []
    else
      var i := IndexOf(text, '\n');
      if i == |text| then [text] else [StripCr(text[..i])] + Lines(text[i + 1..])
  }

  function Join(ls: seq<string>): string {
    if ls == [] then "" else if |ls| == 1 then ls[0] else ls[0] + "\n" + Join(ls[1..])
  }

  function Stripped(ls: seq<string>): (r: seq<string>)
    ensures |r| == |ls|
  {
    seq(|ls|, i requires 0 <= i < |ls| => StripCr(ls[i]))
  }

  predicate OneLine(l: string) {
    '\n' !in l
  }

  predicate OneLiners(ls: seq<string>) {
    forall l :: l in ls ==> OneLine(l)
  }

  lemma {:induction false} LinesAreLines(text: string)
    ensures OneLiners(Lines(text))
    decreases |text|
  {
    if text != "" {
      var i := IndexOf(text, '\n');
      if i == |text| {
        assert text[..i] == text;
      } else {
        LinesAreLines(text[i + 1..]);
      }
    }
  }

  lemma FirstLine(l: string, rest: string)
    requires OneLine(l)
    ensures Lines(l + ['\n'] + rest) == [StripCr(l)] + Lines(rest)
  {
    IndexOfFirst(l, '\n', rest);
    var text := l + ['\n'] + rest;
    assert text[..|l|] == l && text[|l| + 1..] == rest;
  }

  lemma StrippedFirst(ls: seq<string>)
    requires ls != []
    ensures Stripped(ls) == [StripCr(ls[0])] + Stripped(ls[1..])
  {
  }

  /** Joined lines are read back one by one; only a carriage return at the end of a line is lost. */
  lemma {:induction false} LinesOfJoined(ls: seq<string>)
    requires ls != [] && OneLiners(ls)
    ensures Lines(Join(ls) + "\n") == Stripped(ls)
  {
    var rest := if |ls| == 1 then "" else Join(ls[1..]) + "\n";
    assert Join(ls) + "\n" == ls[0] + ['\n'] + rest;
    hide IndexOf, StripCr;
    FirstLine(ls[0], rest);
    StrippedFirst(ls);
    hide Stripped;
    if |ls| > 1 {
      hide Lines;
      LinesOfJoined(ls[1..]);
    }
  }

  lemma {:induction false} JoinedEmpty(ls: seq<string>)
    ensures Join(ls) == "" <==> ls == [] || ls == [""]
  {
  }

  /** These lines, each ended by a line feed. */
  function Terminated(ls: seq<string>): string {
    if ls == [] then "" else ls[0] + "\n" + Terminated(ls[1..])
  }

  /** Every text is some terminated lines and a rest without a line feed. */
  lemma {:induction false} SplitsIntoLines(text: string) returns (ls: seq<string>, rest: string)
    ensures OneLiners(ls) && OneLine(rest) && text == Terminated(ls) + rest
    decreases |text|
  {
    var i := IndexOf(text, '\n');
    if i == |text| {
      ls, rest := [], text;
      assert text[..i] == text;
    } else {
      var more: seq<string>;
      more, rest := SplitsIntoLines(text[i + 1..]);
      ls := [text[..i]] + more;
      assert text == text[..i] + ['\n'] + text[i + 1..];
      assert ls[1..] == more;
    }
  }

  /** Those are its lines, less a carriage return at the end of each; a rest that is not empty is one more. */
  lemma {:induction false} LinesOfText(ls: seq<string>, rest: string)
    requires OneLiners(ls) && OneLine(rest)
    ensures Lines(Terminated(ls) + rest) == Stripped(ls) + (if rest == "" then [] else [rest])
  {
    if ls == [] {
      assert Terminated(ls) + rest == rest;
      assert rest[..|rest|] == rest;
    } else {
      var more := Terminated(ls[1..]) + rest;
      assert Terminated(ls) + rest == ls[0] + ['\n'] + more;
      hide IndexOf, StripCr;
      FirstLine(ls[0], more);
      StrippedFirst(ls);
      hide Stripped, Lines;
      LinesOfText(ls[1..], rest);
    }
  }
}
