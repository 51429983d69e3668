/** The loader itself: the stack and the configuration under construction, updated in place. */
module ConfigLoader {
  import opened Options
  import opened Blocks
  import opened Includes
  import opened IncludeGraphs

  /** Later settings override earlier ones; every file that was loaded is recorded once. */
  datatype Builder = Builder(settings: map<string, string>, rules: seq<Rule>, loaded: seq<Path>)

  function ApplyOne(b: Builder, item: Item): Builder {
    match item
    case Loaded(file) => if file in b.loaded then b else b.(loaded := b.loaded + [file])
    case AddRule(rule) => b.(rules := b.rules + [rule])
    case Assign(setting) => b.(settings := b.settings[setting.key := setting.value])
  }

  function Apply(b: Builder, items: seq<Item>): Builder
    decreases |items|
  {
    if items == [] then b else Apply(ApplyOne(b, items[0]), items[1..])
  }

  lemma {:induction false} ApplyAppend(b: Builder, xs: seq<Item>, ys: seq<Item>)
    ensures Apply(b, xs + ys) == Apply(Apply(b, xs), ys)
    decreases |xs|
  {
    if xs == [] {
      assert xs + ys == ys;
    } else {
      assert (xs + ys)[1..] == xs[1..] + ys;
      ApplyAppend(ApplyOne(b, xs[0]), xs[1..], ys);
    }
  }

  function RulesOf(items: seq<Item>): seq<Rule> {
    if items == [] then []
    else (if items[0].AddRule? then [items[0].rule] else []) + RulesOf(items[1..])
  }

  /** Rules are kept in the order of the items; files are recorded once each. */
  lemma {:induction false} ApplyKeepsOrder(b: Builder, items: seq<Item>)
    ensures Apply(b, items).rules == b.rules + RulesOf(items)
    ensures forall f :: f in Apply(b, items).loaded <==> f in b.loaded || Loaded(f) in items
    ensures Distinct(b.loaded) ==> Distinct(Apply(b, items).loaded)
    decreases |items|
  {
    if items != [] {
      ApplyKeepsOrder(ApplyOne(b, items[0]), items[1..]);
    }
  }

  /** This item gives the key a value. */
  predicate Assigns(item: Item, key: string) {
    item.Assign? && item.setting.key == key
  }

  /** The last of the items that gives the key a value gives it this one. */
  ghost predicate AssignedLast(items: seq<Item>, key: string, value: string) {
    exists i :: && 0 <= i < |items| && items[i] == Assign(Setting(key, value))
                && forall j :: i < j < |items| ==> !Assigns(items[j], key)
  }

  ghost predicate Unassigned(items: seq<Item>, key: string) {
    forall i :: 0 <= i < |items| ==> !Assigns(items[i], key)
  }

  lemma AssignedFirst(items: seq<Item>, key: string, value: string)
    requires items != []
    ensures AssignedLast(items, key, value) <==>
            AssignedLast(items[1..], key, value)
            || (Unassigned(items[1..], key) && items[0] == Assign(Setting(key, value)))
    ensures Unassigned(items, key) <==> Unassigned(items[1..], key) && !Assigns(items[0], key)
  {
    var rest := items[1..];
    assert forall i :: 1 <= i < |items| ==> items[i] == rest[i - 1];
    assert forall i :: 0 <= i < |rest| ==> rest[i] == items[i + 1];
    if AssignedLast(items, key, value) {
      var i :| && 0 <= i < |items| && items[i] == Assign(Setting(key, value))
               && forall j :: i < j < |items| ==> !Assigns(items[j], key);
      if i > 0 {
        assert rest[i - 1] == Assign(Setting(key, value));
      }
    }
    if AssignedLast(rest, key, value) {
      var i :| && 0 <= i < |rest| && rest[i] == Assign(Setting(key, value))
               && forall j :: i < j < |rest| ==> !Assigns(rest[j], key);
      assert items[i + 1] == Assign(Setting(key, value));
    }
  }

  /** A key has the value last assigned to it, and the one it had before if there is no such item. */
  lemma {:induction false} LastAssignmentWins(b: Builder, items: seq<Item>, key: string, value: string)
    ensures var settings := Apply(b, items).settings;
            key in settings && settings[key] == value <==>
            || AssignedLast(items, key, value)
            || (Unassigned(items, key) && key in b.settings && b.settings[key] == value)
    decreases |items|
  {
    if items != [] {
      AssignedFirst(items, key, value);
      hide AssignedLast, Unassigned;
      LastAssignmentWins(ApplyOne(b, items[0]), items[1..], key, value);
    }
  }

  predicate Distinct(files: seq<Path>) {
    forall i, j :: 0 <= i < j < |files| ==> files[i] != files[j]
  }

  // How the walk over the steps of a text unfolds, line by line

  lemma ThenAssociates(a: Trace, b: Trace, c: Trace)
    ensures Then(Then(a, b), c) == Then(a, Then(b, c))
  {
  }

  lemma EndsThere(items: seq<Item>, end: End)
    ensures Then(Trace(items, Fine), Trace([], end)) == Trace(items, end)
  {
  }

  lemma StepsAt(fs: Files, lines: seq<Line>, i: nat, inFile: bool)
    requires i < |lines|
    ensures var here := Steps(fs, lines, i, inFile);
            match lines[i].head
            case Blank => here == Steps(fs, lines, i + 1, inFile)
            case RuleHead =>
              var end := BlockEnd(lines, i);
              if end.None? then here == [Stop(BadBlock)]
              else
                var rule := fs.parseRule(Flatten(Tokens(lines)[i..end.value]));
                here == if rule.None? then [Stop(BadRule)]
                        else [Emit(AddRule(rule.value))] + Steps(fs, lines, end.value, inFile)
            case IncludeHead(targets) => here == IncludeSteps(targets, inFile) + Steps(fs, lines, i + 1, inFile)
            case SettingHead(parsed) =>
              here == if parsed.None? then [Stop(BadSetting)]
                      else [Emit(Assign(parsed.value))] + Steps(fs, lines, i + 1, inFile)
  {
  }

  /** The gathered block is the block. */
  lemma BlockEndIs(lines: seq<Line>, i: nat, gathered: Gathered)
    requires gathered.Block? ==> EndsAt(Tokens(lines), i, gathered.next)
    requires !gathered.Block? ==> forall next: nat :: !EndsAt(Tokens(lines), i, next)
    ensures BlockEnd(lines, i) == if gathered.Block? then Some(gathered.next) else None
  {
    hide EndsAt;
    if gathered.Block? {
      EndIsUnique(Tokens(lines), i, gathered.next, BlockEnd(lines, i).value);
    }
  }

  lemma StopsHere(fs: Files, problem: Problem, stack: seq<Path>)
    ensures WalkAll(fs, [Stop(problem)], stack) == Trace([], Failed(problem))
  {
  }

  lemma EmitsHere(fs: Files, item: Item, rest: seq<Step>, stack: seq<Path>)
    ensures WalkAll(fs, [Emit(item)] + rest, stack) == Then(Trace([item], Fine), WalkAll(fs, rest, stack))
  {
    assert ([Emit(item)] + rest)[1..] == rest;
  }

  lemma EntersNext(fs: Files, paths: seq<Path>, stack: seq<Path>)
    requires paths != []
    ensures WalkAll(fs, Entering(paths), stack)
            == Then(Walk(fs, paths[0], stack), WalkAll(fs, Entering(paths[1..]), stack))
  {
    hide Walk;
    assert Entering(paths)[1..] == Entering(paths[1..]);
  }

  lemma {:induction false} WalkAllSplit(fs: Files, a: seq<Step>, b: seq<Step>, stack: seq<Path>)
    ensures WalkAll(fs, a + b, stack) == Then(WalkAll(fs, a, stack), WalkAll(fs, b, stack))
  {
    hide WalkStep;
    if a == [] {
      assert a + b == b;
    } else {
      assert (a + b)[1..] == a[1..] + b;
      WalkAllSplit(fs, a[1..], b, stack);
      ThenAssociates(WalkStep(fs, a[0], stack), WalkAll(fs, a[1..], stack), WalkAll(fs, b, stack));
    }
  }

  lemma NothingLeft(fs: Files, lines: seq<Line>, inFile: bool, stack: seq<Path>)
    ensures WalkAll(fs, Steps(fs, lines, |lines|, inFile), stack) == Trace([], Fine)
    ensures WalkAll(fs, Entering([]), stack) == Trace([], Fine)
  {
  }

  class Loader {
    const fs: Files
    var stack: seq<Path>
    var builder: Builder

    constructor (fs: Files)
      ensures this.fs == fs && stack == [] && builder == Builder(map[], [], [])
    {
      this.fs := fs;
      stack := [];
      builder := Builder(map[], [], []);
    }

    /** The configuration is what it was, with these items applied. */
    twostate predicate Did(items: seq<Item>)
      reads this
    {
      builder == Apply(old(builder), items)
    }

    method ParseConfigFile(path: Path) returns (end: End)
      modifies this
      ensures stack == old(stack)
      ensures end == Walk(fs, path, stack).end && Did(Walk(fs, path, stack).items)
      decreases Unvisited(fs, stack), 1
    {
      hide WalkFile, Unvisited;
      if path !in fs.canonical {
        return Failed(Unresolved);
      }
      var canonical := fs.canonical[path];
      RecordLoaded(canonical);
      if canonical !in fs.text {
        return Failed(Unreadable);
      }
      end := ParseResolved(canonical, fs.text[canonical]);
      ApplyAppend(old(builder), [Loaded(canonical)], WalkFile(fs, canonical, stack).items);
    }

    method RecordLoaded(file: Path)
      modifies this`builder
      ensures Did([Loaded(file)])
    {
      if file !in builder.loaded {
        builder := builder.(loaded := builder.loaded + [file]);
      }
    }

    method ParseResolved(canonical: Path, text: seq<Line>) returns (end: End)
      requires canonical in fs.text && text == fs.text[canonical]
      modifies this
      ensures stack == old(stack)
      ensures end == WalkFile(fs, canonical, stack).end && Did(WalkFile(fs, canonical, stack).items)
      decreases Unvisited(fs, stack), 0
    {
      hide WalkAll, Steps;
      if canonical in stack {
        return Failed(Cycle);
      }
      Visits(fs, canonical, stack);
      stack := stack + [canonical];
      end := ParseConfigText(text, true);
      stack := stack[..|stack| - 1];
    }

    method ParseConfigText(lines: seq<Line>, inFile: bool) returns (end: End)
      modifies this
      ensures stack == old(stack)
      ensures var t := WalkAll(fs, Steps(fs, lines, 0, inFile), stack);
              end == t.end && Did(t.items)
      decreases Unvisited(fs, stack), 3
    {
      hide WalkAll, Steps, Walk;
      ghost var all := WalkAll(fs, Steps(fs, lines, 0, inFile), stack);
      ghost var done: seq<Item> := [];
      var i := 0;
      while i < |lines|
        invariant 0 <= i <= |lines| && stack == old(stack) && Did(done)
        invariant all == Then(Trace(done, Fine), WalkAll(fs, Steps(fs, lines, i, inFile), stack))
        decreases |lines| - i
      {
        StepsAt(fs, lines, i, inFile);
        var next := i + 1;
        match lines[i].head {
          case Blank =>
          case RuleHead =>
            var gathered := GatherBlock(Tokens(lines), i);
            BlockEndIs(lines, i, gathered);
            if !gathered.Block? {
              StopsHere(fs, BadBlock, stack);
              EndsThere(done, Failed(BadBlock));
              return Failed(BadBlock);
            }
            var rule := fs.parseRule(gathered.tokens);
            if rule.None? {
              StopsHere(fs, BadRule, stack);
              EndsThere(done, Failed(BadRule));
              return Failed(BadRule);
            }
            next := gathered.next;
            EmitsHere(fs, AddRule(rule.value), Steps(fs, lines, next, inFile), stack);
            ThenAssociates(Trace(done, Fine), Trace([AddRule(rule.value)], Fine),
                           WalkAll(fs, Steps(fs, lines, next, inFile), stack));
            ApplyAppend(old(builder), done, [AddRule(rule.value)]);
            done := done + [AddRule(rule.value)];
            builder := builder.(rules := builder.rules + [rule.value]);
          case IncludeHead(targets) =>
            WalkAllSplit(fs, IncludeSteps(targets, inFile), Steps(fs, lines, i + 1, inFile), stack);
            end := ParseInclude(targets, inFile);
            ghost var included := WalkAll(fs, IncludeSteps(targets, inFile), stack);
            ApplyAppend(old(builder), done, included.items);
            ThenAssociates(Trace(done, Fine), included, WalkAll(fs, Steps(fs, lines, next, inFile), stack));
            done := done + included.items;
            if !end.Fine? {
              return;
            }
          case SettingHead(parsed) =>
            if parsed.None? {
              StopsHere(fs, BadSetting, stack);
              EndsThere(done, Failed(BadSetting));
              return Failed(BadSetting);
            }
            EmitsHere(fs, Assign(parsed.value), Steps(fs, lines, next, inFile), stack);
            ThenAssociates(Trace(done, Fine), Trace([Assign(parsed.value)], Fine),
                           WalkAll(fs, Steps(fs, lines, next, inFile), stack));
            ApplyAppend(old(builder), done, [Assign(parsed.value)]);
            done := done + [Assign(parsed.value)];
            builder := builder.(settings := builder.settings[parsed.value.key := parsed.value.value]);
        }
        i := next;
      }
      NothingLeft(fs, lines, inFile, stack);
      EndsThere(done, Fine);
      return Fine;
    }

    method ParseInclude(targets: Targets, inFile: bool) returns (end: End)
      modifies this
      ensures stack == old(stack)
      ensures var t := WalkAll(fs, IncludeSteps(targets, inFile), stack);
              end == t.end && Did(t.items)
      decreases Unvisited(fs, stack), 2
    {
      hide WalkAll, Walk;
      if targets.NoValue? || !inFile || targets.Unexpandable? || targets.paths == [] {
        StopsHere(fs, BadInclude, stack);
        return Failed(BadInclude);
      }
      var paths := targets.paths;
      ghost var all := WalkAll(fs, Entering(paths), stack);
      ghost var done: seq<Item> := [];
      var i := 0;
      while i < |paths|
        invariant 0 <= i <= |paths| && stack == old(stack) && Did(done)
        invariant all == Then(Trace(done, Fine), WalkAll(fs, Entering(paths[i..]), stack))
      {
        EntersNext(fs, paths[i..], stack);
        end := ParseConfigFile(paths[i]);
        ghost var walked := Walk(fs, paths[i], stack);
        ApplyAppend(old(builder), done, walked.items);
        ThenAssociates(Trace(done, Fine), walked, WalkAll(fs, Entering(paths[i..][1..]), stack));
        done := done + walked.items;
        if !end.Fine? {
          return;
        }
        assert paths[i..][1..] == paths[i + 1..];
        i := i + 1;
      }
      NothingLeft(fs, [], inFile, stack);
      assert Entering(paths[i..]) == Entering([]);
      EndsThere(done, Fine);
      return Fine;
    }
  }

  /**
   Loading a configuration file from scratch, told without the stack: the outcome is that of
   the textual expansion, whose rules, settings and files the result has in that order; a cycle
   is reported exactly when the expansion never ends; the files recorded are those reachable.
   */
  method LoadBuilder(fs: Files, path: Path) returns (end: End, builder: Builder)
    ensures end == Failed(Cycle) <==> forall n: nat :: Expand(fs, path, n).end == Cut
    ensures var expansion := Expand(fs, path, |fs.text| + 1);
            end != Failed(Cycle) ==>
              && end == expansion.end && builder == Apply(Builder(map[], [], []), expansion.items)
              && builder.rules == RulesOf(expansion.items)
              && (forall key, value :: key in builder.settings && builder.settings[key] == value <==>
                    AssignedLast(expansion.items, key, value))
    ensures end.Fine? ==> path in fs.canonical && Distinct(builder.loaded)
                          && forall file :: file in builder.loaded <==> Connected(fs, fs.canonical[path], file)
  {
    var loader := new Loader(fs);
    end := loader.ParseConfigFile(path);
    builder := loader.builder;
    hide Walk, Expand, Connected, AssignedLast, Apply;
    LoadingIsExpansion(fs, path);
    forall key, value
      ensures key in builder.settings && builder.settings[key] == value <==>
              AssignedLast(Walk(fs, path, []).items, key, value)
    {
      LastAssignmentWins(Builder(map[], [], []), Walk(fs, path, []).items, key, value);
    }
    ApplyKeepsOrder(Builder(map[], [], []), Walk(fs, path, []).items);
    if end.Fine? {
      forall file ensures file in builder.loaded <==> Connected(fs, fs.canonical[path], file) {
        LoadsExactlyTheReachable(fs, path, file);
      }
    }
  }
}
