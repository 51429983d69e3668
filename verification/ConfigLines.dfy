/**
 A text of the configuration as a list of statements: the lines that are not inside a rule
 block, each with its own meaning. Reading the text is reading them one after the other.
 */
module ConfigLines {
  import opened Options
  import opened Blocks
  import opened Includes
  import opened ConfigLoader

  /** The line after the statement at line i, if that is well-formed. */
  ghost function NextTop(lines: seq<Line>, i: nat): (r: Option<nat>)
    requires i < |lines|
    ensures r.Some? ==> i < r.value <= |lines|
  {
    if lines[i].head.RuleHead? then BlockEnd(lines, i) else Some(i + 1)
  }

  /** The lines at which a statement begins, up to a block that never ends. */
  ghost function Tops(lines: seq<Line>, i: nat): seq<nat>
    requires i <= |lines|
    decreases |lines| - i
  {
    if i == |lines| then []
    else [i] + (if NextTop(lines, i).Some? then Tops(lines, NextTop(lines, i).value) else [])
  }

  /** A rule's block is read as one; a block that never ends and one that is no rule stop the reading. */
  ghost predicate RuleMeans(fs: Files, lines: seq<Line>, i: nat, steps: seq<Step>)
    requires i < |lines|
  {
    if exists next: nat :: EndsAt(Tokens(lines), i, next) then
      exists next: nat, rule ::
        && EndsAt(Tokens(lines), i, next) && i < next <= |lines|
        && fs.parseRule(Flatten(Tokens(lines)[i..next])) == rule
        && steps == [if rule.Some? then Emit(AddRule(rule.value)) else Stop(BadRule)]
    else steps == [Stop(BadBlock)]
  }

  /** What the statement at line i asks for. */
  ghost predicate Means(fs: Files, lines: seq<Line>, i: nat, inFile: bool, steps: seq<Step>)
    requires i < |lines|
  {
    match lines[i].head
    case Blank => steps == []
    case RuleHead => RuleMeans(fs, lines, i, steps)
    case IncludeHead(targets) =>
      if inFile && targets.Matched? && targets.paths != [] then
        |steps| == |targets.paths| && forall k :: 0 <= k < |steps| ==> steps[k] == Enter(targets.paths[k])
      else steps == [Stop(BadInclude)]
    case SettingHead(parsed) =>
      steps == [if parsed.Some? then Emit(Assign(parsed.value)) else Stop(BadSetting)]
  }

  /** The meanings of the statements, in order. */
  ghost predicate MeansAll(fs: Files, lines: seq<Line>, tops: seq<nat>, inFile: bool, parts: seq<seq<Step>>) {
    && |parts| == |tops|
    && forall k :: 0 <= k < |tops| ==> tops[k] < |lines| && Means(fs, lines, tops[k], inFile, parts[k])
  }

  function Chain(parts: seq<seq<Step>>): seq<Step> {
    if parts == [] then [] else parts[0] + Chain(parts[1..])
  }

  lemma MeansAllFirst(fs: Files, lines: seq<Line>, tops: seq<nat>, inFile: bool, parts: seq<seq<Step>>)
    requires tops != [] && MeansAll(fs, lines, tops, inFile, parts)
    ensures tops[0] < |lines| && Means(fs, lines, tops[0], inFile, parts[0])
    ensures MeansAll(fs, lines, tops[1..], inFile, parts[1..])
  {
    hide Means;
  }

  /** Every statement has one meaning. */
  lemma RuleMeaning(fs: Files, lines: seq<Line>, i: nat, steps: seq<Step>)
    requires i < |lines| && RuleMeans(fs, lines, i, steps)
    ensures var end := BlockEnd(lines, i);
            if end.None? then steps == [Stop(BadBlock)]
            else
              var rule := fs.parseRule(Flatten(Tokens(lines)[i..end.value]));
              steps == [if rule.Some? then Emit(AddRule(rule.value)) else Stop(BadRule)]
  {
    hide EndsAt, Flatten;
    var end := BlockEnd(lines, i);
    if end.Some? {
      var next: nat, rule :|
        && EndsAt(Tokens(lines), i, next) && i < next <= |lines|
        && fs.parseRule(Flatten(Tokens(lines)[i..next])) == rule
        && steps == [if rule.Some? then Emit(AddRule(rule.value)) else Stop(BadRule)];
      EndIsUnique(Tokens(lines), i, next, end.value);
    }
  }

  lemma IncludeMeaning(targets: Targets, inFile: bool, steps: seq<Step>)
    requires if inFile && targets.Matched? && targets.paths != [] then
               |steps| == |targets.paths| && forall k :: 0 <= k < |steps| ==> steps[k] == Enter(targets.paths[k])
             else steps == [Stop(BadInclude)]
    ensures steps == IncludeSteps(targets, inFile)
  {
  }

  lemma StopIsLast(fs: Files, problem: Problem, more: seq<Step>, stack: seq<Path>)
    ensures WalkAll(fs, [Stop(problem)] + more, stack) == Trace([], Failed(problem))
  {
  }

  /** The steps of a text are those of its first statement and then the rest, or stop there. */
  lemma OneStatement(fs: Files, lines: seq<Line>, i: nat, inFile: bool, part: seq<Step>)
    requires i < |lines| && Means(fs, lines, i, inFile, part)
    ensures var next := NextTop(lines, i);
            || (next.Some? && Steps(fs, lines, i, inFile) == part + Steps(fs, lines, next.value, inFile))
            || (exists problem :: part == [Stop(problem)] && Steps(fs, lines, i, inFile) == part)
  {
    StepsAt(fs, lines, i, inFile);
    hide Steps, RuleMeans, IncludeSteps;
    match lines[i].head
    case Blank =>
      assert part + Steps(fs, lines, i + 1, inFile) == Steps(fs, lines, i + 1, inFile);
    case RuleHead => RuleMeaning(fs, lines, i, part);
    case IncludeHead(targets) => IncludeMeaning(targets, inFile, part);
    case SettingHead(parsed) =>
  }

  /**
   Reading a text is reading its statements in order, whatever files are being read: settings and
   rules are taken one by one, includes are followed where they stand, and the first statement
   that is malformed ends the reading with its own problem.
   */
  lemma {:induction false} ReadsStatementByStatement(
    fs: Files, lines: seq<Line>, i: nat, inFile: bool, parts: seq<seq<Step>>, stack: seq<Path>)
    requires i <= |lines| && MeansAll(fs, lines, Tops(lines, i), inFile, parts)
    ensures WalkAll(fs, Steps(fs, lines, i, inFile), stack) == WalkAll(fs, Chain(parts), stack)
    decreases |lines| - i
  {
    if i < |lines| {
      var next := NextTop(lines, i);
      MeansAllFirst(fs, lines, Tops(lines, i), inFile, parts);
      assert Tops(lines, i)[1..] == if next.Some? then Tops(lines, next.value) else [];
      hide WalkAll, Steps, MeansAll, Means, Tops;
      OneStatement(fs, lines, i, inFile, parts[0]);
      if next.Some? && Steps(fs, lines, i, inFile) == parts[0] + Steps(fs, lines, next.value, inFile) {
        ReadsStatementByStatement(fs, lines, next.value, inFile, parts[1..], stack);
        WalkAllSplit(fs, parts[0], Steps(fs, lines, next.value, inFile), stack);
        WalkAllSplit(fs, parts[0], Chain(parts[1..]), stack);
      } else {
        var problem :| parts[0] == [Stop(problem)] && Steps(fs, lines, i, inFile) == parts[0];
        StopIsLast(fs, problem, Chain(parts[1..]), stack);
        StopsHere(fs, problem, stack);
      }
    }
  }

  lemma MeansSomething(fs: Files, lines: seq<Line>, i: nat, inFile: bool) returns (steps: seq<Step>)
    requires i < |lines|
    ensures Means(fs, lines, i, inFile, steps)
  {
    match lines[i].head
    case Blank => steps := [];
    case RuleHead =>
      hide EndsAt;
      var end := BlockEnd(lines, i);
      if end.None? {
        steps := [Stop(BadBlock)];
      } else {
        var rule := fs.parseRule(Flatten(Tokens(lines)[i..end.value]));
        steps := [if rule.Some? then Emit(AddRule(rule.value)) else Stop(BadRule)];
      }
    case IncludeHead(targets) =>
      var named := inFile && targets.Matched? && targets.paths != [];
      steps := if named then Entering(targets.paths) else [Stop(BadInclude)];
    case SettingHead(parsed) =>
      steps := [if parsed.Some? then Emit(Assign(parsed.value)) else Stop(BadSetting)];
  }

  lemma MeansOne(
    fs: Files, lines: seq<Line>, tops: seq<nat>, inFile: bool, parts: seq<seq<Step>>, i: nat, first: seq<Step>)
    requires i < |lines| && Means(fs, lines, i, inFile, first) && MeansAll(fs, lines, tops, inFile, parts)
    ensures MeansAll(fs, lines, [i] + tops, inFile, [first] + parts)
  {
    hide Means;
  }

  /** Every text has such a reading. */
  lemma {:induction false} EveryTextReads(fs: Files, lines: seq<Line>, i: nat, inFile: bool)
    returns (parts: seq<seq<Step>>)
    requires i <= |lines|
    ensures MeansAll(fs, lines, Tops(lines, i), inFile, parts)
    decreases |lines| - i
  {
    parts := [];
    if i < |lines| {
      var next := NextTop(lines, i);
      var tops := if next.Some? then Tops(lines, next.value) else [];
      assert Tops(lines, i) == [i] + tops;
      assert MeansAll(fs, lines, [], inFile, []);
      hide Means, MeansAll, Tops, NextTop;
      if next.Some? {
        parts := EveryTextReads(fs, lines, next.value, inFile);
      }
      var first := MeansSomething(fs, lines, i, inFile);
      MeansOne(fs, lines, tops, inFile, parts, i, first);
      parts := [first] + parts;
    }
  }
}
