/**
 Configuration files that include each other. Loading walks the files with a stack of the
 ones being read; the reference is the textual expansion, which knows no stack and is cut at
 a depth. The file system is fixed while a configuration is loaded.
 */
module Includes {
  import opened Options
  import opened Blocks

  type Path = nat
  type Rule = nat

  /** What an include line names: nothing, a pattern that cannot be expanded, or these files. */
  datatype Targets = NoValue | Unexpandable | Matched(paths: seq<Path>)

  datatype Setting = Setting(key: string, value: string)

  /** What the first words of a line announce. */
  datatype Head = Blank | RuleHead | IncludeHead(targets: Targets) | SettingHead(parsed: Option<Setting>)

  datatype Line = Line(head: Head, tokens: seq<Token>)

  /** Names resolve to canonical files; some of those can be read. */
  datatype Files = Files(canonical: map<Path, Path>, text: map<Path, seq<Line>>, parseRule: seq<Token> -> Option<Rule>)

  datatype Problem = Unresolved | Unreadable | BadBlock | BadRule | BadInclude | BadSetting | Cycle

  /** What loading does to the configuration, in order. */
  datatype Item = Loaded(file: Path) | AddRule(rule: Rule) | Assign(setting: Setting)

  /** Cut: the expansion was not followed deeply enough to tell. */
  datatype End = Fine | Failed(problem: Problem) | Cut

  datatype Trace = Trace(items: seq<Item>, end: End)

  function Then(a: Trace, b: Trace): Trace {
    if a.end.Fine? then Trace(a.items + b.items, b.end) else a
  }

  // ---------------------------------------------------------------------------
  // One file
  // ---------------------------------------------------------------------------

  datatype Step = Emit(item: Item) | Enter(path: Path) | Stop(problem: Problem)

  function Tokens(lines: seq<Line>): (r: seq<seq<Token>>)
    ensures |r| == |lines|
  {
    seq(|lines|, i requires 0 <= i < |lines| => lines[i].tokens)
  }

  function Entering(paths: seq<Path>): (r: seq<Step>)
    ensures |r| == |paths|
  {
    seq(|paths|, i requires 0 <= i < |paths| => Enter(paths[i]))
  }

  /** An include line; only text that came from a file may include. */
  function IncludeSteps(targets: Targets, inFile: bool): seq<Step> {
    if targets.NoValue? || !inFile || targets.Unexpandable? || targets.paths == [] then [Stop(BadInclude)]
    else Entering(targets.paths)
  }

  /** Where the block that starts at line i ends, if it does. */
  ghost function BlockEnd(lines: seq<Line>, i: nat): (r: Option<nat>)
    ensures r.Some? ==> EndsAt(Tokens(lines), i, r.value) && i < r.value <= |lines|
    ensures r.None? ==> forall next: nat :: !EndsAt(Tokens(lines), i, next)
  {
    if exists next: nat :: EndsAt(Tokens(lines), i, next) then
      var next: nat :| EndsAt(Tokens(lines), i, next);
      Some(next)
    else None
  }

  ghost function Steps(fs: Files, lines: seq<Line>, i: nat, inFile: bool): seq<Step>
    requires i <= |lines|
    decreases |lines| - i
  {
    if i == |lines| then []
    else
      match lines[i].head
      case Blank => Steps(fs, lines, i + 1, inFile)
      case RuleHead =>
        var end := BlockEnd(lines, i);
        if end.None? then [Stop(BadBlock)]
        else
          var rule := fs.parseRule(Flatten(Tokens(lines)[i..end.value]));
          if rule.None? then [Stop(BadRule)]
          else [Emit(AddRule(rule.value))] + Steps(fs, lines, end.value, inFile)
      case IncludeHead(targets) => IncludeSteps(targets, inFile) + Steps(fs, lines, i + 1, inFile)
      case SettingHead(parsed) =>
        if parsed.Some? then [Emit(Assign(parsed.value))] + Steps(fs, lines, i + 1, inFile) else [Stop(BadSetting)]
  }

  ghost function FileSteps(fs: Files, file: Path): seq<Step>
    requires file in fs.text
  {
    Steps(fs, fs.text[file], 0, true)
  }

  // ---------------------------------------------------------------------------
  // Loading, with the stack
  // ---------------------------------------------------------------------------

  ghost function Elements(files: seq<Path>): set<Path> {
    set f | f in files
  }

  ghost function Unvisited(fs: Files, stack: seq<Path>): set<Path> {
    fs.text.Keys - Elements(stack)
  }

  /** What loading a file does; every file is on the stack while its text is read. */
  ghost function Walk(fs: Files, path: Path, stack: seq<Path>): Trace
    decreases Unvisited(fs, stack), 1
  {
    if path !in fs.canonical then Trace([], Failed(Unresolved))
    else
      var file := fs.canonical[path];
      if file !in fs.text then Trace([Loaded(file)], Failed(Unreadable))
      else Then(Trace([Loaded(file)], Fine), WalkFile(fs, file, stack))
  }

  ghost function WalkFile(fs: Files, file: Path, stack: seq<Path>): Trace
    requires file in fs.text
    decreases Unvisited(fs, stack), 0
  {
    if file in stack then Trace([], Failed(Cycle))
    else
      Visits(fs, file, stack);
      WalkAll(fs, FileSteps(fs, file), stack + [file])
  }

  ghost function WalkAll(fs: Files, steps: seq<Step>, stack: seq<Path>): Trace
    decreases Unvisited(fs, stack), |steps| + 3
  {
    if steps == [] then Trace([], Fine)
    else Then(WalkStep(fs, steps[0], stack), WalkAll(fs, steps[1..], stack))
  }

  ghost function WalkStep(fs: Files, step: Step, stack: seq<Path>): Trace
    decreases Unvisited(fs, stack), 2
  {
    match step
    case Emit(item) => Trace([item], Fine)
    case Stop(problem) => Trace([], Failed(problem))
    case Enter(path) => Walk(fs, path, stack)
  }

  lemma Visits(fs: Files, file: Path, stack: seq<Path>)
    requires file in fs.text && file !in stack
    ensures Unvisited(fs, stack + [file]) == Unvisited(fs, stack) - {file}
    ensures file in Unvisited(fs, stack)
    ensures |Unvisited(fs, stack + [file])| == |Unvisited(fs, stack)| - 1
  {
  }

  // ---------------------------------------------------------------------------
  // Textual expansion, without one
  // ---------------------------------------------------------------------------

  /** Includes replaced by what they name, down to the n-th level. */
  ghost function Expand(fs: Files, path: Path, n: nat): Trace
    decreases n, 0
  {
    if n == 0 then Trace([], Cut)
    else if path !in fs.canonical then Trace([], Failed(Unresolved))
    else
      var file := fs.canonical[path];
      if file !in fs.text then Trace([Loaded(file)], Failed(Unreadable))
      else Then(Trace([Loaded(file)], Fine), ExpandAll(fs, FileSteps(fs, file), n - 1))
  }

  ghost function ExpandAll(fs: Files, steps: seq<Step>, n: nat): Trace
    decreases n, |steps| + 2
  {
    if steps == [] then Trace([], Fine)
    else Then(ExpandStep(fs, steps[0], n), ExpandAll(fs, steps[1..], n))
  }

  ghost function ExpandStep(fs: Files, step: Step, n: nat): Trace
    decreases n, 1
  {
    match step
    case Emit(item) => Trace([item], Fine)
    case Stop(problem) => Trace([], Failed(problem))
    case Enter(path) => Expand(fs, path, n)
  }

  /** Once it is known how an expansion ends, looking deeper changes nothing. */
  lemma {:induction false} ExpandSettles(fs: Files, path: Path, n: nat)
    requires !Expand(fs, path, n).end.Cut?
    ensures Expand(fs, path, n + 1) == Expand(fs, path, n)
    decreases n, 0
  {
    hide Steps;
    if path in fs.canonical && fs.canonical[path] in fs.text {
      ExpandAllSettles(fs, FileSteps(fs, fs.canonical[path]), n - 1);
    }
  }

  lemma {:induction false} ExpandAllSettles(fs: Files, steps: seq<Step>, n: nat)
    requires !ExpandAll(fs, steps, n).end.Cut?
    ensures ExpandAll(fs, steps, n + 1) == ExpandAll(fs, steps, n)
    decreases n, |steps| + 2
  {
    hide Expand;
    if steps != [] {
      if steps[0].Enter? {
        ExpandSettles(fs, steps[0].path, n);
      }
      if ExpandStep(fs, steps[0], n).end.Fine? {
        ExpandAllSettles(fs, steps[1..], n);
      }
    }
  }

  lemma {:induction false} ExpandAllSettled(fs: Files, steps: seq<Step>, n: nat, m: nat)
    requires n <= m && !ExpandAll(fs, steps, n).end.Cut?
    ensures ExpandAll(fs, steps, m) == ExpandAll(fs, steps, n)
    decreases m - n
  {
    hide *;
    if n < m {
      ExpandAllSettles(fs, steps, n);
      ExpandAllSettled(fs, steps, n + 1, m);
    }
  }

  lemma {:induction false} ExpandSettled(fs: Files, path: Path, n: nat, m: nat)
    requires n <= m && !Expand(fs, path, n).end.Cut?
    ensures Expand(fs, path, m) == Expand(fs, path, n)
    decreases m - n
  {
    hide *;
    if n < m {
      ExpandSettles(fs, path, n);
      ExpandSettled(fs, path, n + 1, m);
    }
  }

  // ---------------------------------------------------------------------------
  // Without a cycle, loading is expansion
  // ---------------------------------------------------------------------------

  lemma {:induction false} WalkIsExpand(fs: Files, path: Path, stack: seq<Path>, n: nat)
    requires |Unvisited(fs, stack)| < n && Walk(fs, path, stack).end != Failed(Cycle)
    ensures Expand(fs, path, n) == Walk(fs, path, stack)
    decreases n, 0
  {
    hide Steps, WalkAll, ExpandAll;
    if path in fs.canonical && fs.canonical[path] in fs.text {
      var file := fs.canonical[path];
      Visits(fs, file, stack);
      hide Unvisited;
      WalkAllIsExpand(fs, FileSteps(fs, file), stack + [file], n - 1);
    }
  }

  lemma {:induction false} WalkAllIsExpand(fs: Files, steps: seq<Step>, stack: seq<Path>, n: nat)
    requires |Unvisited(fs, stack)| < n && WalkAll(fs, steps, stack).end != Failed(Cycle)
    ensures ExpandAll(fs, steps, n) == WalkAll(fs, steps, stack)
    decreases n, |steps| + 2
  {
    hide Walk, Expand, Unvisited;
    if steps != [] {
      if steps[0].Enter? {
        WalkIsExpand(fs, steps[0].path, stack, n);
      }
      if WalkStep(fs, steps[0], stack).end.Fine? {
        WalkAllIsExpand(fs, steps[1..], stack, n);
      }
    }
  }

  // ---------------------------------------------------------------------------
  // A reported cycle is one the expansion never gets out of
  // ---------------------------------------------------------------------------

  /** Step k of a file includes the next one, and nothing before it stops the expansion for good. */
  ghost predicate ReachesAt(fs: Files, file: Path, k: nat, next: Path) {
    && file in fs.text && k < |FileSteps(fs, file)|
    && FileSteps(fs, file)[k].Enter? && FileSteps(fs, file)[k].path in fs.canonical
    && fs.canonical[FileSteps(fs, file)[k].path] == next
    && forall n: nat :: !ExpandAll(fs, FileSteps(fs, file)[..k], n).end.Failed?
  }

  ghost predicate Reaches(fs: Files, file: Path, next: Path) {
    exists k: nat :: ReachesAt(fs, file, k, next)
  }

  /** From every one of these files the expansion comes to another of them. */
  ghost predicate Looping(fs: Files, files: set<Path>) {
    forall file :: file in files ==> exists next :: next in files && Reaches(fs, file, next)
  }

  lemma {:induction false} ExpandAllSplit(fs: Files, steps: seq<Step>, k: nat, n: nat)
    requires k <= |steps|
    ensures ExpandAll(fs, steps, n) == Then(ExpandAll(fs, steps[..k], n), ExpandAll(fs, steps[k..], n))
  {
    hide ExpandStep;
    if k == 0 {
      assert steps[..0] == [] && steps[0..] == steps;
    } else {
      assert steps[..k][1..] == steps[1..][..k - 1] && steps[k..] == steps[1..][k - 1..];
      ExpandAllSplit(fs, steps[1..], k - 1, n);
    }
  }

  lemma {:induction false} LoopIsNeverDecided(fs: Files, files: set<Path>, path: Path, n: nat)
    requires Looping(fs, files) && path in fs.canonical && fs.canonical[path] in files
    ensures Expand(fs, path, n).end == Cut
    decreases n
  {
    hide *;
    if n == 0 {
      NoLevel(fs, path);
    } else {
      var file := fs.canonical[path];
      var k, next := NextInLoop(fs, files, file);
      LoopIsNeverDecided(fs, files, FileSteps(fs, file)[k].path, n - 1);
      GetsStuck(fs, file, k, next, n - 1);
      OneLevel(fs, path, n);
    }
  }

  lemma NoLevel(fs: Files, path: Path)
    ensures Expand(fs, path, 0).end == Cut
  {
  }

  lemma OneLevel(fs: Files, path: Path, n: nat)
    requires n > 0 && path in fs.canonical && fs.canonical[path] in fs.text
    ensures Expand(fs, path, n)
            == Then(Trace([Loaded(fs.canonical[path])], Fine), ExpandAll(fs, FileSteps(fs, fs.canonical[path]), n - 1))
    ensures Expand(fs, path, n).end == ExpandAll(fs, FileSteps(fs, fs.canonical[path]), n - 1).end
  {
    hide Steps, ExpandAll;
  }

  lemma NextInLoop(fs: Files, files: set<Path>, file: Path) returns (k: nat, next: Path)
    requires Looping(fs, files) && file in files
    ensures next in files && ReachesAt(fs, file, k, next)
    ensures file in fs.text && k < |FileSteps(fs, file)| && FileSteps(fs, file)[k].Enter?
    ensures FileSteps(fs, file)[k].path in fs.canonical && fs.canonical[FileSteps(fs, file)[k].path] == next
  {
    hide ReachesAt, FileSteps;
    next :| next in files && Reaches(fs, file, next);
    k :| ReachesAt(fs, file, k, next);
    IncludesAt(fs, file, k, next);
  }

  lemma IncludesAt(fs: Files, file: Path, k: nat, next: Path)
    requires ReachesAt(fs, file, k, next)
    ensures file in fs.text && k < |FileSteps(fs, file)| && FileSteps(fs, file)[k].Enter?
    ensures FileSteps(fs, file)[k].path in fs.canonical && fs.canonical[FileSteps(fs, file)[k].path] == next
  {
    hide ExpandAll, FileSteps;
  }

  lemma GetsStuck(fs: Files, file: Path, k: nat, next: Path, n: nat)
    requires ReachesAt(fs, file, k, next) && Expand(fs, FileSteps(fs, file)[k].path, n).end == Cut
    ensures ExpandAll(fs, FileSteps(fs, file), n).end == Cut
  {
    hide FileSteps, ExpandAll, Expand;
    var steps := FileSteps(fs, file);
    ExpandAllSplit(fs, steps, k, n);
    EntersFirst(fs, steps[k..], n);
  }

  lemma EntersFirst(fs: Files, steps: seq<Step>, n: nat)
    requires steps != [] && steps[0].Enter? && Expand(fs, steps[0].path, n).end == Cut
    ensures ExpandAll(fs, steps, n).end == Cut
  {
    hide Expand;
  }

  ghost predicate Chain(fs: Files, files: seq<Path>) {
    forall i :: 0 <= i < |files| - 1 ==> Reaches(fs, files[i], files[i + 1])
  }

  /** The chain ends where it can go on to one of its own files. */
  ghost predicate Lasso(fs: Files, files: seq<Path>) {
    Chain(fs, files) && files != [] && exists j :: 0 <= j < |files| && Reaches(fs, files[|files| - 1], files[j])
  }

  lemma LassoLoops(fs: Files, files: seq<Path>)
    requires Lasso(fs, files)
    ensures Looping(fs, Elements(files))
  {
    hide Reaches;
    forall file | file in files ensures exists next :: next in Elements(files) && Reaches(fs, file, next) {
      var i :| 0 <= i < |files| && files[i] == file;
      if i < |files| - 1 {
        assert files[i + 1] in Elements(files);
      } else {
        var j :| 0 <= j < |files| && Reaches(fs, files[|files| - 1], files[j]);
        assert files[j] in Elements(files);
      }
    }
  }

  /** The step at which a walk runs into a cycle; all before it went well. */
  lemma {:induction false} CyclingStep(fs: Files, steps: seq<Step>, stack: seq<Path>) returns (k: nat)
    requires WalkAll(fs, steps, stack).end == Failed(Cycle)
    requires forall i :: 0 <= i < |steps| ==> steps[i] != Stop(Cycle)
    ensures k < |steps| && steps[k].Enter? && Walk(fs, steps[k].path, stack).end == Failed(Cycle)
    ensures WalkAll(fs, steps[..k], stack).end.Fine?
  {
    hide Walk;
    if WalkStep(fs, steps[0], stack).end.Fine? {
      var j := CyclingStep(fs, steps[1..], stack);
      k := j + 1;
      assert steps[..k][1..] == steps[1..][..j];
    } else {
      assert steps[0] != Stop(Cycle);
      k := 0;
    }
  }

  lemma {:induction false} NoStepClaimsCycle(fs: Files, lines: seq<Line>, i: nat, inFile: bool)
    requires i <= |lines|
    ensures forall k :: 0 <= k < |Steps(fs, lines, i, inFile)| ==> Steps(fs, lines, i, inFile)[k] != Stop(Cycle)
    decreases |lines| - i
  {
    hide EndsAt, BlockEnd;
    if i < |lines| {
      NoStepClaimsCycle(fs, lines, i + 1, inFile);
      if BlockEnd(lines, i).Some? {
        NoStepClaimsCycle(fs, lines, BlockEnd(lines, i).value, inFile);
      }
    }
  }

  /** What went well while loading can never fail in an expansion. */
  lemma FineNeverFails(fs: Files, steps: seq<Step>, stack: seq<Path>, n: nat)
    requires WalkAll(fs, steps, stack).end.Fine?
    ensures !ExpandAll(fs, steps, n).end.Failed?
  {
    hide *;
    var m := |Unvisited(fs, stack)| + 1 + n;
    WalkAllIsExpand(fs, steps, stack, m);
    if ExpandAll(fs, steps, n).end.Failed? {
      ExpandAllSettled(fs, steps, n, m);
    }
  }

  /** The files behind a reported cycle. */
  lemma {:induction false} FindLasso(fs: Files, path: Path, stack: seq<Path>) returns (files: seq<Path>)
    requires Walk(fs, path, stack).end == Failed(Cycle) && Chain(fs, stack)
    requires stack != [] && path in fs.canonical ==> Reaches(fs, stack[|stack| - 1], fs.canonical[path])
    ensures path in fs.canonical && Lasso(fs, files) && stack <= files
    ensures fs.canonical[path] in files && (fs.canonical[path] !in stack ==> stack + [fs.canonical[path]] <= files)
    decreases Unvisited(fs, stack)
  {
    hide *;
    CycleBelow(fs, path, stack);
    var file := fs.canonical[path];
    if file in stack {
      ChainCloses(fs, stack, file);
      files := stack;
    } else {
      var steps := FileSteps(fs, file);
      NoFileClaimsCycle(fs, file);
      var k := CyclingStep(fs, steps, stack + [file]);
      Visits(fs, file, stack);
      GoesOn(fs, file, k, stack + [file]);
      ChainGrows(fs, stack, file);
      files := FindLasso(fs, steps[k].path, stack + [file]);
    }
  }

  lemma CycleBelow(fs: Files, path: Path, stack: seq<Path>)
    requires Walk(fs, path, stack).end == Failed(Cycle)
    ensures path in fs.canonical && fs.canonical[path] in fs.text
    ensures fs.canonical[path] !in stack ==>
              WalkAll(fs, FileSteps(fs, fs.canonical[path]), stack + [fs.canonical[path]]).end == Failed(Cycle)
  {
    hide WalkAll, FileSteps;
  }

  lemma NoFileClaimsCycle(fs: Files, file: Path)
    requires file in fs.text
    ensures forall k :: 0 <= k < |FileSteps(fs, file)| ==> FileSteps(fs, file)[k] != Stop(Cycle)
  {
    hide Steps;
    NoStepClaimsCycle(fs, fs.text[file], 0, true);
  }

  lemma ChainGrows(fs: Files, stack: seq<Path>, file: Path)
    requires Chain(fs, stack) && (stack != [] ==> Reaches(fs, stack[|stack| - 1], file))
    ensures Chain(fs, stack + [file])
  {
    hide Reaches;
  }

  lemma ChainCloses(fs: Files, stack: seq<Path>, file: Path)
    requires Chain(fs, stack) && file in stack && Reaches(fs, stack[|stack| - 1], file)
    ensures Lasso(fs, stack)
  {
    hide Reaches;
  }

  lemma GoesOn(fs: Files, file: Path, k: nat, stack: seq<Path>)
    requires file in fs.text && k < |FileSteps(fs, file)| && FileSteps(fs, file)[k].Enter?
    requires WalkAll(fs, FileSteps(fs, file)[..k], stack).end.Fine?
    ensures FileSteps(fs, file)[k].path in fs.canonical ==>
              Reaches(fs, file, fs.canonical[FileSteps(fs, file)[k].path])
  {
    hide WalkAll, ExpandAll, FileSteps;
    forall n: nat ensures !ExpandAll(fs, FileSteps(fs, file)[..k], n).end.Failed? {
      FineNeverFails(fs, FileSteps(fs, file)[..k], stack, n);
    }
    if FileSteps(fs, file)[k].path in fs.canonical {
      assert ReachesAt(fs, file, k, fs.canonical[FileSteps(fs, file)[k].path]);
    }
  }

  /**
   Loading is the textual expansion. It ends in a cycle exactly when the expansion goes on at
   every depth; otherwise it does what the expansion does, item by item, and ends as it ends.
   A depth of one more than the number of readable files is always enough.
   */
  lemma LoadingIsExpansion(fs: Files, path: Path)
    ensures Walk(fs, path, []).end == Failed(Cycle) <==> forall n: nat :: Expand(fs, path, n).end == Cut
    ensures Walk(fs, path, []).end != Failed(Cycle) ==>
              forall n: nat :: n > |fs.text| ==> Expand(fs, path, n) == Walk(fs, path, [])
    ensures forall n: nat :: !Expand(fs, path, n).end.Cut? ==> Expand(fs, path, n) == Walk(fs, path, [])
  {
    hide *;
    if Walk(fs, path, []).end == Failed(Cycle) {
      CycleIsNeverDecided(fs, path);
    } else {
      WalkNeverCut(fs, path, []);
      EverythingUnvisited(fs);
      forall n: nat | n > |fs.text| ensures Expand(fs, path, n) == Walk(fs, path, []) {
        WalkIsExpand(fs, path, [], n);
      }
      forall n: nat | !Expand(fs, path, n).end.Cut? ensures Expand(fs, path, n) == Walk(fs, path, []) {
        ExpandSettled(fs, path, n, n + |fs.text| + 1);
      }
      assert !Expand(fs, path, |fs.text| + 1).end.Cut?;
    }
  }

  lemma EverythingUnvisited(fs: Files)
    ensures |Unvisited(fs, [])| == |fs.text|
  {
    assert Unvisited(fs, []) == fs.text.Keys;
  }

  lemma CycleIsNeverDecided(fs: Files, path: Path)
    requires Walk(fs, path, []).end == Failed(Cycle)
    ensures forall n: nat :: Expand(fs, path, n).end == Cut
  {
    hide Walk, Reaches, Lasso, Looping, Expand;
    var files := FindLasso(fs, path, []);
    LassoLoops(fs, files);
    forall n: nat ensures Expand(fs, path, n).end == Cut {
      LoopIsNeverDecided(fs, Elements(files), path, n);
    }
  }

  lemma {:induction false} WalkNeverCut(fs: Files, path: Path, stack: seq<Path>)
    ensures !Walk(fs, path, stack).end.Cut?
    decreases Unvisited(fs, stack), 0
  {
    hide Steps, WalkAll;
    if path in fs.canonical && fs.canonical[path] in fs.text && fs.canonical[path] !in stack {
      var file := fs.canonical[path];
      Visits(fs, file, stack);
      WalkAllNeverCut(fs, FileSteps(fs, file), stack + [file]);
    }
  }

  lemma {:induction false} WalkAllNeverCut(fs: Files, steps: seq<Step>, stack: seq<Path>)
    ensures !WalkAll(fs, steps, stack).end.Cut?
    decreases Unvisited(fs, stack), |steps| + 2
  {
    hide Walk;
    if steps != [] {
      if steps[0].Enter? {
        WalkNeverCut(fs, steps[0].path, stack);
      }
      WalkAllNeverCut(fs, steps[1..], stack);
    }
  }
}
