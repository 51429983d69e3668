/** Loading told in terms of the include graph: which cycles are reported, and which files are loaded. */
module IncludeGraphs {
  import opened Includes

  ghost predicate EdgeAt(fs: Files, file: Path, k: nat, next: Path) {
    && file in fs.text && k < |FileSteps(fs, file)|
    && FileSteps(fs, file)[k].Enter? && FileSteps(fs, file)[k].path in fs.canonical
    && fs.canonical[FileSteps(fs, file)[k].path] == next
  }

  /** One file has an include line that names the other. */
  ghost predicate Edge(fs: Files, file: Path, next: Path) {
    exists k: nat :: EdgeAt(fs, file, k, next)
  }

  ghost predicate IsPath(fs: Files, files: seq<Path>) {
    forall i :: 0 <= i < |files| - 1 ==> Edge(fs, files[i], files[i + 1])
  }

  ghost predicate PathBetween(fs: Files, files: seq<Path>, from: Path, to: Path) {
    files != [] && files[0] == from && files[|files| - 1] == to && IsPath(fs, files)
  }

  ghost predicate Connected(fs: Files, from: Path, to: Path) {
    exists files :: PathBetween(fs, files, from, to)
  }

  /** A path that comes to a file twice. */
  ghost predicate Repeats(fs: Files, files: seq<Path>, from: Path) {
    && files != [] && files[0] == from && IsPath(fs, files)
    && exists i, j :: 0 <= i < j < |files| && files[i] == files[j]
  }

  ghost predicate CycleFrom(fs: Files, from: Path) {
    exists files :: Repeats(fs, files, from)
  }

  ghost predicate CleanSteps(fs: Files, region: set<Path>, steps: seq<Step>) {
    forall k :: 0 <= k < |steps| ==>
      && !steps[k].Stop?
      && (steps[k].Enter? ==> steps[k].path in fs.canonical && fs.canonical[steps[k].path] in region)
  }

  /** No error but a cycle can occur in these files, and they include only each other. */
  ghost predicate Clean(fs: Files, region: set<Path>) {
    forall file :: file in region ==> file in fs.text && CleanSteps(fs, region, FileSteps(fs, file))
  }

  // ---------------------------------------------------------------------------
  // Cycles
  // ---------------------------------------------------------------------------

  lemma {:induction false} CleanNeverFails(fs: Files, region: set<Path>, path: Path, n: nat)
    requires Clean(fs, region) && path in fs.canonical && fs.canonical[path] in region
    ensures !Expand(fs, path, n).end.Failed?
    decreases n, 0
  {
    hide CleanSteps, FileSteps, ExpandAll, Steps;
    if n > 0 {
      CleanStepsNeverFail(fs, region, FileSteps(fs, fs.canonical[path]), n - 1);
    }
  }

  lemma {:induction false} CleanStepsNeverFail(fs: Files, region: set<Path>, steps: seq<Step>, n: nat)
    requires Clean(fs, region) && CleanSteps(fs, region, steps)
    ensures !ExpandAll(fs, steps, n).end.Failed?
    decreases n, |steps| + 2
  {
    hide Expand, Clean;
    if steps != [] {
      if steps[0].Enter? {
        CleanNeverFails(fs, region, steps[0].path, n);
      }
      CleanStepsNeverFail(fs, region, steps[1..], n);
    }
  }

  /** In clean files an include line is always reached. */
  lemma CleanEdgeReaches(fs: Files, region: set<Path>, file: Path, next: Path)
    requires Clean(fs, region) && file in region && Edge(fs, file, next)
    ensures Reaches(fs, file, next) && next in region
  {
    hide FileSteps, ExpandAll;
    var k: nat :| EdgeAt(fs, file, k, next);
    var steps := FileSteps(fs, file);
    assert CleanSteps(fs, region, steps);
    forall n: nat ensures !ExpandAll(fs, steps[..k], n).end.Failed? {
      CleanStepsNeverFail(fs, region, steps[..k], n);
    }
    assert ReachesAt(fs, file, k, next);
  }

  lemma ReachingIsEdge(fs: Files, file: Path, next: Path)
    requires Reaches(fs, file, next)
    ensures Edge(fs, file, next)
  {
    hide ReachesAt, FileSteps;
    var k: nat :| ReachesAt(fs, file, k, next);
    IncludesAt(fs, file, k, next);
    assert EdgeAt(fs, file, k, next);
  }

  lemma {:induction false} PathStaysInside(fs: Files, region: set<Path>, files: seq<Path>, i: nat)
    requires Clean(fs, region) && files != [] && files[0] in region && IsPath(fs, files) && i < |files|
    ensures files[i] in region
  {
    hide Clean, Edge;
    if i > 0 {
      PathStaysInside(fs, region, files, i - 1);
      assert Edge(fs, files[i - 1], files[i - 1 + 1]);
      CleanEdgeReaches(fs, region, files[i - 1], files[i]);
    }
  }

  lemma RepeatLoops(fs: Files, region: set<Path>, files: seq<Path>, i: nat, j: nat)
    requires Clean(fs, region) && files != [] && files[0] in region && IsPath(fs, files)
    requires i < j < |files| && files[i] == files[j]
    ensures Looping(fs, Elements(files[..j]))
  {
    hide Clean, Reaches, Edge;
    var loop := Elements(files[..j]);
    forall file | file in loop ensures exists next :: next in loop && Reaches(fs, file, next) {
      var k :| 0 <= k < j && files[k] == file;
      PathStaysInside(fs, region, files, k);
      assert Edge(fs, files[k], files[k + 1]);
      CleanEdgeReaches(fs, region, files[k], files[k + 1]);
      var next := if k + 1 == j then files[i] else files[k + 1];
      assert next == files[..j][if k + 1 == j then i else k + 1];
      assert next in loop && Reaches(fs, file, next);
    }
  }

  lemma LassoRepeats(fs: Files, files: seq<Path>)
    requires Lasso(fs, files)
    ensures CycleFrom(fs, files[0])
  {
    hide Reaches, Edge;
    var j :| 0 <= j < |files| && Reaches(fs, files[|files| - 1], files[j]);
    var path := files + [files[j]];
    forall i | 0 <= i < |path| - 1 ensures Edge(fs, path[i], path[i + 1]) {
      assert path[i] == files[i] && path[i + 1] == if i + 1 < |files| then files[i + 1] else files[j];
      ReachingIsEdge(fs, path[i], path[i + 1]);
    }
    assert path[j] == path[|files|];
    assert Repeats(fs, path, files[0]);
  }

  /**
   Where no other error can occur, loading succeeds or reports a cycle, and it reports one
   exactly when a cycle of the include graph can be reached from the entry file.
   */
  lemma CycleReportedExactly(fs: Files, region: set<Path>, path: Path)
    requires Clean(fs, region) && path in fs.canonical && fs.canonical[path] in region
    ensures Walk(fs, path, []).end == Fine || Walk(fs, path, []).end == Failed(Cycle)
    ensures Walk(fs, path, []).end == Failed(Cycle) <==> CycleFrom(fs, fs.canonical[path])
  {
    hide Clean, Walk, Expand, Looping, Lasso, IsPath;
    LoadingIsExpansion(fs, path);
    if Walk(fs, path, []).end == Failed(Cycle) {
      var files := FindLasso(fs, path, []);
      LassoRepeats(fs, files);
    } else {
      var n: nat :| Expand(fs, path, n).end != Cut;
      CleanNeverFails(fs, region, path, n);
    }
    if CycleFrom(fs, fs.canonical[path]) {
      var files :| Repeats(fs, files, fs.canonical[path]);
      var i, j :| 0 <= i < j < |files| && files[i] == files[j];
      RepeatLoops(fs, region, files, i, j);
      assert files[..j][0] == fs.canonical[path];
      forall n: nat ensures Expand(fs, path, n).end == Cut {
        LoopIsNeverDecided(fs, Elements(files[..j]), path, n);
      }
    }
  }

  // ---------------------------------------------------------------------------
  // Loaded files
  // ---------------------------------------------------------------------------

  lemma EdgeThenPath(fs: Files, from: Path, via: Path, to: Path)
    requires Edge(fs, from, via) && Connected(fs, via, to)
    ensures Connected(fs, from, to)
  {
    hide Edge;
    var files :| PathBetween(fs, files, via, to);
    var longer := [from] + files;
    forall i | 0 <= i < |longer| - 1 ensures Edge(fs, longer[i], longer[i + 1]) {
      if i > 0 {
        assert longer[i] == files[i - 1] && longer[i + 1] == files[i - 1 + 1];
      }
    }
    assert PathBetween(fs, longer, from, to);
  }

  lemma {:induction false} LoadedIsConnected(fs: Files, path: Path, n: nat, file: Path)
    requires Loaded(file) in Expand(fs, path, n).items
    ensures path in fs.canonical && Connected(fs, fs.canonical[path], file)
    decreases n
  {
    hide ExpandAll, FileSteps, Steps, Connected;
    var entry := fs.canonical[path];
    if file == entry {
      Trivially(fs, entry);
    } else {
      OneLevel(fs, path, n);
      var steps := FileSteps(fs, entry);
      FileEmitsNoLoads(fs, entry);
      var k := ItemFrom(fs, steps, n - 1, Loaded(file));
      LoadedIsConnected(fs, steps[k].path, n - 1, file);
      assert EdgeAt(fs, entry, k, fs.canonical[steps[k].path]);
      EdgeThenPath(fs, entry, fs.canonical[steps[k].path], file);
    }
  }

  lemma Trivially(fs: Files, file: Path)
    ensures Connected(fs, file, file)
  {
    assert PathBetween(fs, [file], file, file);
  }

  /** The include an item came through. */
  lemma {:induction false} ItemFrom(fs: Files, steps: seq<Step>, n: nat, item: Item) returns (k: nat)
    requires item in ExpandAll(fs, steps, n).items && item.Loaded?
    requires forall i :: 0 <= i < |steps| && steps[i].Emit? ==> !steps[i].item.Loaded?
    ensures k < |steps| && steps[k].Enter? && item in Expand(fs, steps[k].path, n).items
  {
    hide Expand;
    if item in ExpandStep(fs, steps[0], n).items {
      k := 0;
    } else {
      var j := ItemFrom(fs, steps[1..], n, item);
      k := j + 1;
    }
  }

  /** A part of what went well went well itself, and all it did is there. */
  lemma {:induction false} PartOfFine(fs: Files, steps: seq<Step>, k: nat, n: nat)
    requires k < |steps| && ExpandAll(fs, steps, n).end.Fine?
    ensures ExpandStep(fs, steps[k], n).end.Fine?
    ensures forall item :: item in ExpandStep(fs, steps[k], n).items ==> item in ExpandAll(fs, steps, n).items
  {
    hide ExpandStep;
    if k > 0 {
      PartOfFine(fs, steps[1..], k - 1, n);
    }
  }

  lemma {:induction false} ConnectedIsLoaded(fs: Files, path: Path, n: nat, files: seq<Path>, file: Path)
    requires Expand(fs, path, n).end.Fine? && path in fs.canonical
    requires PathBetween(fs, files, fs.canonical[path], file)
    ensures Loaded(file) in Expand(fs, path, n).items
    decreases |files|
  {
    hide ExpandAll, FileSteps, Steps;
    var entry := fs.canonical[path];
    if |files| > 1 {
      assert Edge(fs, files[0], files[0 + 1]);
      var k: nat :| EdgeAt(fs, entry, k, files[1]);
      var steps := FileSteps(fs, entry);
      OneLevel(fs, path, n);
      PartOfFine(fs, steps, k, n - 1);
      var rest := files[1..];
      forall i | 0 <= i < |rest| - 1 ensures Edge(fs, rest[i], rest[i + 1]) {
        assert Edge(fs, files[i + 1], files[i + 1 + 1]);
      }
      ConnectedIsLoaded(fs, steps[k].path, n - 1, rest, file);
    }
  }

  /** Of the lines of a file only rules and settings are emitted. */
  lemma {:induction false} FilesEmitNoLoads(fs: Files, lines: seq<Line>, i: nat, inFile: bool)
    requires i <= |lines|
    ensures forall k :: 0 <= k < |Steps(fs, lines, i, inFile)| && Steps(fs, lines, i, inFile)[k].Emit? ==>
              !Steps(fs, lines, i, inFile)[k].item.Loaded?
    decreases |lines| - i
  {
    hide BlockEnd;
    if i < |lines| {
      FilesEmitNoLoads(fs, lines, i + 1, inFile);
      if BlockEnd(lines, i).Some? {
        FilesEmitNoLoads(fs, lines, BlockEnd(lines, i).value, inFile);
      }
    }
  }

  lemma FileEmitsNoLoads(fs: Files, file: Path)
    requires file in fs.text
    ensures forall k :: 0 <= k < |FileSteps(fs, file)| && FileSteps(fs, file)[k].Emit? ==>
              !FileSteps(fs, file)[k].item.Loaded?
  {
    hide Steps;
    FilesEmitNoLoads(fs, fs.text[file], 0, true);
  }

  /** A successful load has read exactly the files that can be reached from the entry file. */
  lemma LoadsExactlyTheReachable(fs: Files, path: Path, file: Path)
    requires Walk(fs, path, []).end.Fine?
    ensures path in fs.canonical
    ensures Loaded(file) in Walk(fs, path, []).items <==> Connected(fs, fs.canonical[path], file)
  {
    hide Connected, Expand;
    LoadingIsExpansion(fs, path);
    var n := |fs.text| + 1;
    assert Expand(fs, path, n) == Walk(fs, path, []);
    if Loaded(file) in Expand(fs, path, n).items {
      LoadedIsConnected(fs, path, n, file);
    }
    if Connected(fs, fs.canonical[path], file) {
      var files := SomePath(fs, fs.canonical[path], file);
      ConnectedIsLoaded(fs, path, n, files, file);
    }
  }

  lemma SomePath(fs: Files, from: Path, to: Path) returns (files: seq<Path>)
    requires Connected(fs, from, to)
    ensures PathBetween(fs, files, from, to)
  {
    files :| PathBetween(fs, files, from, to);
  }
}
