/**
 Rule blocks: a rule runs from its first line to the line that closes its braces. A line is
 the sequence of its words and braces, comments removed.
 */
module Blocks {

  datatype Token = Open | Close | Word(text: string)

  /** The tokens of a rule and the line after it, or why there is none. */
  datatype Gathered = Block(tokens: seq<Token>, next: nat) | UnexpectedClose | TokensAfterClose | Unterminated

  function Flatten(lines: seq<seq<Token>>): seq<Token> {
    if lines == [] then [] else Flatten(lines[..|lines| - 1]) + lines[|lines| - 1]
  }

  /** Braces opened and not closed. */
  function Depth(ts: seq<Token>): int {
    if ts == [] then 0
    else Depth(ts[..|ts| - 1]) + Change(ts[|ts| - 1])
  }

  function Change(t: Token): int {
    match t
    case Open => 1
    case Close => -1
    case Word(_) => 0
  }

  /** More has to come: no brace has been opened yet, or one is still open. */
  predicate Unfinished(ts: seq<Token>) {
    Depth(ts) >= 0 && (Open in ts ==> Depth(ts) > 0)
  }

  ghost predicate UnfinishedBefore(ts: seq<Token>) {
    forall k :: 0 <= k < |ts| ==> Unfinished(ts[..k])
  }

  ghost predicate UnfinishedThroughout(ts: seq<Token>) {
    UnfinishedBefore(ts) && Unfinished(ts)
  }

  /** The last token closes the first brace, and no earlier one did. */
  ghost predicate Closes(ts: seq<Token>) {
    Open in ts && Depth(ts) == 0 && UnfinishedBefore(ts)
  }

  /** The block from `start` ends before line `next`: its closing brace is the last token of the line before. */
  ghost predicate EndsAt(lines: seq<seq<Token>>, start: nat, next: nat) {
    start < next <= |lines| && lines[next - 1] != [] && Closes(Flatten(lines[start..next]))
  }

  lemma FlattenSnoc(lines: seq<seq<Token>>, start: nat, i: nat)
    requires start <= i < |lines|
    ensures Flatten(lines[start..i + 1]) == Flatten(lines[start..i]) + lines[i]
  {
    assert lines[start..i + 1][..i - start] == lines[start..i];
  }

  lemma {:induction false} FlattenPrefix(lines: seq<seq<Token>>, start: nat, i: nat, next: nat)
    requires start <= i <= next <= |lines|
    ensures Flatten(lines[start..i]) <= Flatten(lines[start..next])
    decreases next - i
  {
    if i < next {
      FlattenPrefix(lines, start, i, next - 1);
      FlattenSnoc(lines, start, next - 1);
    }
  }

  /** A block ends in one place only. */
  lemma EndIsUnique(lines: seq<seq<Token>>, start: nat, a: nat, b: nat)
    requires EndsAt(lines, start, a) && EndsAt(lines, start, b)
    ensures a == b
  {
    if a < b {
      EndsBeforeNot(lines, start, a, b);
    } else if b < a {
      EndsBeforeNot(lines, start, b, a);
    }
  }

  lemma EndsBeforeNot(lines: seq<seq<Token>>, start: nat, a: nat, b: nat)
    requires EndsAt(lines, start, a) && start < a < b <= |lines|
    ensures !EndsAt(lines, start, b)
  {
    var short, long := Flatten(lines[start..a]), Flatten(lines[start..b]);
    FlattenPrefix(lines, start, a, b - 1);
    FlattenSnoc(lines, start, b - 1);
    if lines[b - 1] != [] {
      assert |short| < |long| && long[..|short|] == short;
    }
  }

  /** As long as everything read is unfinished, no block has ended. */
  lemma NotYet(lines: seq<seq<Token>>, start: nat, i: nat, next: nat)
    requires start <= i <= |lines| && UnfinishedThroughout(Flatten(lines[start..i])) && next <= i
    ensures !EndsAt(lines, start, next)
  {
    if start < next {
      FlattenPrefix(lines, start, next, i);
      var ts, all := Flatten(lines[start..next]), Flatten(lines[start..i]);
      assert all[..|ts|] == ts;
      assert Unfinished(ts) by {
        if |ts| == |all| {
          assert ts == all;
        }
      }
    }
  }

  /** The tokens from `start` up to the j-th of line i. */
  ghost function ReadTo(lines: seq<seq<Token>>, start: nat, i: nat, j: nat): seq<Token>
    requires start <= i < |lines| && j <= |lines[i]|
  {
    Flatten(lines[start..i]) + lines[i][..j]
  }

  /** The first place at which what has been read is no longer unfinished. */
  ghost predicate StopsAt(lines: seq<seq<Token>>, start: nat, i: nat, j: nat) {
    && start <= i < |lines| && j <= |lines[i]|
    && UnfinishedBefore(ReadTo(lines, start, i, j)) && !Unfinished(ReadTo(lines, start, i, j))
  }

  /** A stray closing brace, or tokens after the closing one: the block never ends. */
  lemma NeverEnds(lines: seq<seq<Token>>, start: nat, i: nat, j: nat)
    requires start <= i < |lines| && j <= |lines[i]|
    requires UnfinishedThroughout(Flatten(lines[start..i]))
    requires var read := Flatten(lines[start..i]) + lines[i][..j];
             !Unfinished(read) && (Depth(read) < 0 || j < |lines[i]|)
    ensures forall next: nat :: !EndsAt(lines, start, next)
  {
    var read := Flatten(lines[start..i]) + lines[i][..j];
    forall next: nat ensures !EndsAt(lines, start, next) {
      if next <= i {
        NotYet(lines, start, i, next);
      } else if next <= |lines| {
        FlattenSnoc(lines, start, i);
        FlattenPrefix(lines, start, i + 1, next);
        hide Closes, Unfinished, Depth, Flatten;
        BadPrefix(read, Flatten(lines[start..next]));
      }
    }
  }

  lemma BadPrefix(read: seq<Token>, ts: seq<Token>)
    requires read <= ts && !Unfinished(read) && (Depth(read) < 0 || |read| < |ts|)
    ensures !Closes(ts)
  {
    hide Depth;
    assert ts[..|read|] == read;
    if |ts| == |read| {
      assert ts == read;
    }
  }

  lemma ReadOne(read: seq<Token>, t: Token)
    requires UnfinishedThroughout(read)
    ensures UnfinishedBefore(read + [t])
    ensures Depth(read + [t]) == Depth(read) + Change(t) && (Open in read + [t] <==> Open in read || t == Open)
  {
    var ts := read + [t];
    assert ts[..|read|] == read;
    forall k | 0 <= k < |ts| ensures Unfinished(ts[..k]) {
      assert ts[..k] == read[..k];
      if k == |read| {
        assert ts[..k] == read;
      }
    }
  }

  method GatherBlock(lines: seq<seq<Token>>, start: nat) returns (r: Gathered)
    requires start <= |lines|
    ensures r.Block? ==> EndsAt(lines, start, r.next) && r.tokens == Flatten(lines[start..r.next])
    ensures !r.Block? ==> forall next: nat :: !EndsAt(lines, start, next)
    ensures r.UnexpectedClose? ==>
              exists i: nat, j: nat :: StopsAt(lines, start, i, j) && Depth(ReadTo(lines, start, i, j)) < 0
    ensures r.TokensAfterClose? ==>
              exists i: nat, j: nat ::
                StopsAt(lines, start, i, j) && Closes(ReadTo(lines, start, i, j)) && j < |lines[i]|
    ensures r.Unterminated? ==> UnfinishedThroughout(Flatten(lines[start..]))
  {
    hide Depth, Flatten, UnfinishedBefore;
    var tokens: seq<Token> := [];
    var depth := 0;
    var hasOpened := false;
    var i := start;
    NothingRead(lines, start);
    while i < |lines|
      invariant start <= i <= |lines| && tokens == Flatten(lines[start..i])
      invariant depth == Depth(tokens) && hasOpened == (Open in tokens)
      invariant UnfinishedThroughout(tokens)
    {
      var line := lines[i];
      ghost var before := tokens;
      for j := 0 to |line|
        invariant tokens == before + line[..j]
        invariant depth == Depth(tokens) && hasOpened == (Open in tokens)
        invariant UnfinishedBefore(tokens)
        invariant Unfinished(tokens) || (j == |line| && j > 0 && hasOpened && depth == 0)
      {
        ReadOne(tokens, line[j]);
        match line[j] {
          case Open => depth := depth + 1; hasOpened := true;
          case Close => depth := depth - 1;
          case Word(_) =>
        }
        tokens := tokens + [line[j]];
        assert tokens == before + line[..j + 1];
        if depth < 0 {
          NeverEnds(lines, start, i, j + 1);
          assert StopsAt(lines, start, i, j + 1);
          return UnexpectedClose;
        }
        if hasOpened && depth == 0 && j + 1 < |line| {
          NeverEnds(lines, start, i, j + 1);
          assert StopsAt(lines, start, i, j + 1);
          return TokensAfterClose;
        }
      }
      FlattenSnoc(lines, start, i);
      assert line[..|line|] == line;
      i := i + 1;
      if hasOpened && depth == 0 {
        return Block(tokens, i);
      }
    }
    assert lines[start..|lines|] == lines[start..];
    forall next: nat ensures !EndsAt(lines, start, next) {
      if next <= |lines| {
        NotYet(lines, start, |lines|, next);
      }
    }
    return Unterminated;
  }

  lemma NothingRead(lines: seq<seq<Token>>, start: nat)
    requires start <= |lines|
    ensures Flatten(lines[start..start]) == [] && Depth([]) == 0 && UnfinishedThroughout([])
  {
  }
}
