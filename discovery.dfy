/** What getTestScripts (lib/runner.go:109-199) finds: the test scripts under the targets that
    the include pattern matches and the exclude pattern does not, the root directory they are
    reported against, and their paths relative to it. The regular expressions, os.Stat and
    filepath.Walk are given as data. */
module Discovery {
  import opened Wrappers
  import opened Seqs
  import opened FilePath
  import opened PathUtil

  /** What regexp.Compile made of a pattern: its MatchString, or the compile error's message. */
  datatype Pattern = Compiled(matches: string -> bool) | Malformed(message: string)

  /** One call of filepath.Walk's callback, in the order Walk makes them: a visited path, given
      relative to the walked folder, with whether it is a directory; or an error reported for
      an entry that could not be read. */
  datatype WalkEvent = Visit(name: string, isDir: bool) | VisitError(message: string)

  /** What os.Stat reports for a path: an error, a file, or a directory together with what a
      walk of it visits. */
  datatype Node = Missing(message: string) | RegularFile | Directory(walk: seq<WalkEvent>)

  /** The file system as the runner sees it: the working directory that filepath.Abs resolves
      relative paths against, and what os.Stat and filepath.Walk see at each absolute path. */
  datatype FileSystem = FileSystem(cwd: AbsPath, stat: string -> Node)

  /** The errors getTestScripts returns, with the data their messages are made from. */
  datatype DiscoveryError =
    | IncludeError(message: string)               // lib/runner.go:111-113
    | ExcludeError(message: string)               // lib/runner.go:115-117
    | TargetError(path: string, message: string)  // lib/runner.go:125-128
    | WalkError(message: string)                  // lib/runner.go:141-143, 156-158
    | RootStatError(path: string, message: string) // lib/runner.go:181-184
    | RelError(path: string, root: string, message: string) // lib/runner.go:192-195

  predicate Selected(included: string -> bool, excluded: string -> bool, path: string)
  {
    included(path) && !excluded(path)
  }

  /** A loop whose steps each append some entries or fail: the entries of all the steps in
      order, or the failure of the first step that fails. */
  function Collect<T, E>(steps: seq<Result<seq<T>, E>>): Result<seq<T>, E>
    decreases |steps|
  {
    if steps == [] then Success([])
    else match Collect(steps[..|steps| - 1])
      case Failure(e) => Failure(e)
      case Success(done) =>
        match steps[|steps| - 1]
          case Failure(e) => Failure(e)
          case Success(more) => Success(done + more)
  }

  /** What the walk callback (lib/runner.go:140-155) appends for one visit: the path when it is
      not a directory and passes both patterns; an error is returned unchanged and stops the
      walk. */
  function WalkStep(folder: string, event: WalkEvent, included: string -> bool, excluded: string -> bool)
    : Result<seq<string>, DiscoveryError>
  {
    match event
      case VisitError(message) => Failure(WalkError(message))
      case Visit(name, isDir) =>
        var path := JoinPath(folder, name);
        Success(if !isDir && Selected(included, excluded, path) then [path] else [])
  }

  function WalkSteps(folder: string, events: seq<WalkEvent>, included: string -> bool, excluded: string -> bool)
    : (r: seq<Result<seq<string>, DiscoveryError>>)
    ensures |r| == |events|
    ensures forall k :: 0 <= k < |events| ==> r[k] == WalkStep(folder, events[k], included, excluded)
  {
    seq(|events|, k requires 0 <= k < |events| => WalkStep(folder, events[k], included, excluded))
  }

  /** The paths a walk finds, in walk order. */
  function WalkFound(folder: string, events: seq<WalkEvent>, included: string -> bool, excluded: string -> bool)
    : Result<seq<string>, DiscoveryError>
  {
    Collect(WalkSteps(folder, events, included, excluded))
  }

  /** What one target contributes (lib/runner.go:121-158): a file target is kept when it passes
      both patterns, and a directory target contributes what its walk finds. */
  function TargetFound(fs: FileSystem, target: string, included: string -> bool, excluded: string -> bool)
    : Result<seq<string>, DiscoveryError>
  {
    var folder := Abs(fs.cwd, target);
    match fs.stat(folder)
      case Missing(message) => Failure(TargetError(folder, message))
      case RegularFile => Success(if Selected(included, excluded, folder) then [folder] else [])
      case Directory(walk) => WalkFound(folder, walk, included, excluded)
  }

  function TargetSteps(fs: FileSystem, targets: seq<string>, included: string -> bool, excluded: string -> bool)
    : (r: seq<Result<seq<string>, DiscoveryError>>)
    ensures |r| == |targets|
    ensures forall k :: 0 <= k < |targets| ==> r[k] == TargetFound(fs, targets[k], included, excluded)
  {
    seq(|targets|, k requires 0 <= k < |targets| => TargetFound(fs, targets[k], included, excluded))
  }

  /** foundTests after the loop over the targets (lib/runner.go:119-159). */
  function TargetsFound(fs: FileSystem, targets: seq<string>, included: string -> bool, excluded: string -> bool)
    : Result<seq<string>, DiscoveryError>
  {
    Collect(TargetSteps(fs, targets, included, excluded))
  }

  /** The root directory (lib/runner.go:161-190). */
  function RootFor(fs: FileSystem, targets: seq<string>, found: seq<string>): Result<string, DiscoveryError>
    requires |targets| > 0
  {
    if |targets| > 1 then
      if |found| != 1 then Success(CommonRoot(fs.cwd, found)) else Success(Dir(found[0]))
    else
      var folder := Abs(fs.cwd, targets[0]);
      match fs.stat(folder)
        case Missing(message) => Failure(RootStatError(folder, message))
        case Directory(_) => Success(folder)
        case RegularFile => Success(Dir(folder))
  }

  /** Rewriting one path relative to the root (lib/runner.go:192-196). */
  function RelStep(root: string, path: string): Result<seq<string>, DiscoveryError>
  {
    match Rel(root, path)
      case Failure(message) => Failure(RelError(path, root, message))
      case Success(rel) => Success([rel])
  }

  function RelSteps(root: string, found: seq<string>): (r: seq<Result<seq<string>, DiscoveryError>>)
    ensures |r| == |found|
    ensures forall k :: 0 <= k < |found| ==> r[k] == RelStep(root, found[k])
  {
    seq(|found|, k requires 0 <= k < |found| => RelStep(root, found[k]))
  }

  /** foundTests after the loop of lib/runner.go:191-197 rewrites each path relative to the
      root. */
  function Relativise(root: string, found: seq<string>): Result<seq<string>, DiscoveryError>
  {
    Collect(RelSteps(root, found))
  }

  /** getTestScripts (lib/runner.go:109-199): the root and the relative paths of the scripts. It
      needs at least one target, since lib/runner.go:177 reads the first one. */
  function Discover(fs: FileSystem, targets: seq<string>, includeRe: Pattern, excludeRe: Pattern)
    : Result<(string, seq<string>), DiscoveryError>
    requires |targets| > 0
  {
    if includeRe.Malformed? then Failure(IncludeError(includeRe.message))
    else if excludeRe.Malformed? then Failure(ExcludeError(excludeRe.message))
    else match TargetsFound(fs, targets, includeRe.matches, excludeRe.matches)
      case Failure(e) => Failure(e)
      case Success(found) =>
        match RootFor(fs, targets, found)
          case Failure(e) => Failure(e)
          case Success(root) =>
            match Relativise(root, found)
              case Failure(e) => Failure(e)
              case Success(rels) => Success((root, rels))
  }

  // ---------------------------------------------------------------------------------------
  // Loops made of steps

  /** A step that fails ends the loop: the failure of a prefix is the failure of the whole. */
  lemma {:induction false} CollectFails<T, E>(steps: seq<Result<seq<T>, E>>, k: nat)
    requires k <= |steps| && Collect(steps[..k]).Failure?
    ensures Collect(steps) == Collect(steps[..k])
    decreases |steps| - k
  {
    if k < |steps| {
      var n := |steps|;
      assert steps[..n - 1][..k] == steps[..k];
      CollectFails(steps[..n - 1], k);
    } else {
      assert steps[..k] == steps;
    }
  }

  /** One more step of the loop. */
  lemma CollectNext<T, E>(steps: seq<Result<seq<T>, E>>, k: nat)
    requires k < |steps|
    ensures Collect(steps[..k]).Success? && steps[k].Success? ==>
      Collect(steps[..k + 1]) == Success(Collect(steps[..k]).value + steps[k].value)
    ensures Collect(steps[..k]).Success? && steps[k].Failure? ==>
      Collect(steps[..k + 1]) == Failure(steps[k].error)
  {
    assert steps[..k + 1][..k] == steps[..k];
  }

  /** The loop succeeds exactly when every step does, and otherwise fails with the first
      failing step's error. */
  lemma {:induction false} CollectOutcome<T, E>(steps: seq<Result<seq<T>, E>>)
    ensures Collect(steps).Success? <==> forall k :: 0 <= k < |steps| ==> steps[k].Success?
    ensures Collect(steps).Failure? ==>
      exists k :: 0 <= k < |steps| && steps[k] == Failure(Collect(steps).error)
                  && forall k' :: 0 <= k' < k ==> steps[k'].Success?
    decreases |steps|
  {
    if steps != [] {
      var n := |steps|;
      var init := steps[..n - 1];
      CollectOutcome(init);
      assert forall k :: 0 <= k < n - 1 ==> init[k] == steps[k];
      if Collect(init).Failure? {
        var k :| 0 <= k < |init| && init[k] == Failure(Collect(init).error)
                 && forall k' :: 0 <= k' < k ==> init[k'].Success?;
        assert steps[k] == init[k];
      } else if steps[n - 1].Failure? {
        assert steps[n - 1] == Failure(Collect(steps).error);
      }
    }
  }

  /** The entries of a successful loop are those of its steps, concatenated in order. */
  lemma {:induction false} CollectAppend<T, E>(a: seq<Result<seq<T>, E>>, b: seq<Result<seq<T>, E>>)
    requires Collect(a + b).Success?
    ensures Collect(a).Success? && Collect(b).Success?
    ensures Collect(a + b).value == Collect(a).value + Collect(b).value
    decreases |b|
  {
    if b == [] {
      assert a + b == a;
    } else {
      AppendInit(a, b);
      CollectAppend(a, b[..|b| - 1]);
    }
  }

  /** An entry is in the result of a successful loop exactly when some step appended it. */
  lemma {:induction false} CollectMembers<T, E>(steps: seq<Result<seq<T>, E>>, x: T)
    requires Collect(steps).Success?
    ensures x in Collect(steps).value <==> exists k :: 0 <= k < |steps| && steps[k].Success? && x in steps[k].value
    decreases |steps|
  {
    if steps != [] {
      var n := |steps|;
      var init := steps[..n - 1];
      CollectMembers(init, x);
      assert forall k :: 0 <= k < n - 1 ==> init[k] == steps[k];
      if x in steps[n - 1].value {
        assert steps[n - 1].Success?;
      }
    }
  }

  /** When every step appends one entry, the result has one entry per step, in step order. */
  lemma {:induction false} CollectSingles<T, E>(steps: seq<Result<seq<T>, E>>)
    requires forall k :: 0 <= k < |steps| ==> steps[k].Success? && |steps[k].value| == 1
    ensures Collect(steps).Success? && |Collect(steps).value| == |steps|
    ensures forall k :: 0 <= k < |steps| ==> Collect(steps).value[k] == steps[k].value[0]
    decreases |steps|
  {
    if steps != [] {
      var n := |steps|;
      CollectSingles(steps[..n - 1]);
    }
  }

  // ---------------------------------------------------------------------------------------
  // Properties

  /** A pattern that does not compile is reported, include first, and nothing is found. */
  lemma DiscoverPatternError(fs: FileSystem, targets: seq<string>, includeRe: Pattern, excludeRe: Pattern)
    requires |targets| > 0
    ensures includeRe.Malformed? ==> Discover(fs, targets, includeRe, excludeRe) == Failure(IncludeError(includeRe.message))
    ensures includeRe.Compiled? && excludeRe.Malformed? ==>
      Discover(fs, targets, includeRe, excludeRe) == Failure(ExcludeError(excludeRe.message))
  {
  }

  /** A walk fails exactly when it reports an error, and then with the first error it
      reports. */
  lemma WalkFoundFailure(folder: string, events: seq<WalkEvent>, included: string -> bool, excluded: string -> bool)
    ensures var r := WalkFound(folder, events, included, excluded);
      && (r.Failure? <==> exists k :: 0 <= k < |events| && events[k].VisitError?)
      && (r.Failure? ==> exists k :: 0 <= k < |events| && events[k].VisitError? && r.error == WalkError(events[k].message)
                                     && forall k' :: 0 <= k' < k ==> events[k'].Visit?)
  {
    var steps := WalkSteps(folder, events, included, excluded);
    CollectOutcome(steps);
    if Collect(steps).Failure? {
      var k :| 0 <= k < |steps| && steps[k] == Failure(Collect(steps).error)
               && forall k' :: 0 <= k' < k ==> steps[k'].Success?;
      assert events[k].VisitError?;
    } else {
      forall k | 0 <= k < |events| ensures events[k].Visit? {
        assert steps[k].Success?;
      }
    }
  }

  /** A walk that succeeds finds exactly the visited non-directories whose paths under the
      folder pass both patterns; under a clean absolute folder those paths are clean absolute
      paths. */
  lemma WalkFoundMembers(folder: AbsPath, events: seq<WalkEvent>, included: string -> bool, excluded: string -> bool, p: string)
    requires WalkFound(folder, events, included, excluded).Success?
    ensures p in WalkFound(folder, events, included, excluded).value <==>
      exists k :: 0 <= k < |events| && events[k].Visit? && !events[k].isDir
                  && p == JoinPath(folder, events[k].name) && Selected(included, excluded, p)
    ensures p in WalkFound(folder, events, included, excluded).value ==> IsCleanAbs(p)
  {
    var steps := WalkSteps(folder, events, included, excluded);
    CollectMembers(steps, p);
    if p in Collect(steps).value {
      var k :| 0 <= k < |steps| && steps[k].Success? && p in steps[k].value;
      WalkStepMember(folder, events[k], included, excluded, p);
      JoinPathRooted(folder, events[k].name);
    } else {
      forall k | 0 <= k < |events| && events[k].Visit? && !events[k].isDir
        ensures !(p == JoinPath(folder, events[k].name) && Selected(included, excluded, p))
      {
        WalkStepMember(folder, events[k], included, excluded, p);
      }
    }
  }

  /** What one visit appends: the visited path, when it is a file that passes both patterns. */
  lemma WalkStepMember(folder: string, event: WalkEvent, included: string -> bool, excluded: string -> bool, p: string)
    requires WalkStep(folder, event, included, excluded).Success?
    ensures p in WalkStep(folder, event, included, excluded).value <==>
      event.Visit? && !event.isDir && p == JoinPath(folder, event.name) && Selected(included, excluded, p)
  {
  }

  /** The targets' finds are concatenated in target order, each target's finds in walk order. */
  lemma TargetsFoundInOrder(fs: FileSystem, a: seq<string>, b: seq<string>, included: string -> bool, excluded: string -> bool)
    requires TargetsFound(fs, a + b, included, excluded).Success?
    ensures TargetsFound(fs, a, included, excluded).Success? && TargetsFound(fs, b, included, excluded).Success?
    ensures TargetsFound(fs, a + b, included, excluded).value
         == TargetsFound(fs, a, included, excluded).value + TargetsFound(fs, b, included, excluded).value
  {
    TargetStepsAppend(fs, a, b, included, excluded);
    CollectAppend(TargetSteps(fs, a, included, excluded), TargetSteps(fs, b, included, excluded));
  }

  lemma TargetStepsAppend(fs: FileSystem, a: seq<string>, b: seq<string>, included: string -> bool, excluded: string -> bool)
    ensures TargetSteps(fs, a + b, included, excluded) == TargetSteps(fs, a, included, excluded) + TargetSteps(fs, b, included, excluded)
  {
    MapAppend(t => TargetFound(fs, t, included, excluded), a, b,
              TargetSteps(fs, a, included, excluded), TargetSteps(fs, b, included, excluded),
              TargetSteps(fs, a + b, included, excluded));
  }

  /** Every path found passes both patterns and is a clean absolute path. */
  lemma TargetsFoundSelected(fs: FileSystem, targets: seq<string>, included: string -> bool, excluded: string -> bool, p: string)
    requires TargetsFound(fs, targets, included, excluded).Success?
    requires p in TargetsFound(fs, targets, included, excluded).value
    ensures Selected(included, excluded, p) && IsCleanAbs(p)
  {
    var steps := TargetSteps(fs, targets, included, excluded);
    CollectMembers(steps, p);
    var k :| 0 <= k < |steps| && steps[k].Success? && p in steps[k].value;
    var folder := Abs(fs.cwd, targets[k]);
    AbsIsCleanAbs(fs.cwd, targets[k]);
    match fs.stat(folder)
      case RegularFile =>
      case Directory(walk) =>
        WalkFoundMembers(folder, walk, included, excluded, p);
  }

  lemma TargetsFoundAllSelected(fs: FileSystem, targets: seq<string>, included: string -> bool, excluded: string -> bool)
    requires TargetsFound(fs, targets, included, excluded).Success?
    ensures forall i :: 0 <= i < |TargetsFound(fs, targets, included, excluded).value| ==>
      Selected(included, excluded, TargetsFound(fs, targets, included, excluded).value[i])
      && IsCleanAbs(TargetsFound(fs, targets, included, excluded).value[i])
  {
    var found := TargetsFound(fs, targets, included, excluded).value;
    forall i | 0 <= i < |found| ensures Selected(included, excluded, found[i]) && IsCleanAbs(found[i]) {
      TargetsFoundSelected(fs, targets, included, excluded, found[i]);
    }
  }

  /** The four ways of choosing the root: one directory target is the root; one file target's
      parent is the root; with several targets and exactly one find, that find's parent is the
      root; otherwise the root is the common root of the finds, "" when there are none. */
  lemma RootForCases(fs: FileSystem, targets: seq<string>, found: seq<string>)
    requires |targets| > 0
    ensures var folder := Abs(fs.cwd, targets[0]);
      && (|targets| == 1 && fs.stat(folder).Directory? ==> RootFor(fs, targets, found) == Success(folder))
      && (|targets| == 1 && fs.stat(folder).RegularFile? ==> RootFor(fs, targets, found) == Success(Dir(folder)))
      && (|targets| > 1 && |found| == 1 ==> RootFor(fs, targets, found) == Success(Dir(found[0])))
      && (|targets| > 1 && |found| != 1 ==> RootFor(fs, targets, found) == Success(CommonRoot(fs.cwd, found)))
      && (|targets| > 1 && found == [] ==> RootFor(fs, targets, found) == Success(""))
  {
  }

  /** Whenever something was found the root is a clean absolute path, and with several targets
      and other than one find it is an ancestor-or-self of every find. */
  lemma RootIsCleanAbs(fs: FileSystem, targets: seq<string>, found: seq<string>)
    requires |targets| > 0 && found != [] && RootFor(fs, targets, found).Success?
    requires forall i :: 0 <= i < |found| ==> IsCleanAbs(found[i])
    ensures IsCleanAbs(RootFor(fs, targets, found).value)
    ensures |targets| > 1 && |found| != 1 ==> forall i :: 0 <= i < |found| ==>
      Elements(RootFor(fs, targets, found).value) <= Elements(found[i])
  {
    if |targets| > 1 {
      if |found| != 1 {
        CommonRootShape(fs.cwd, found);
        CommonRootIsAncestor(fs.cwd, found);
        forall i | 0 <= i < |found| ensures Abs(fs.cwd, found[i]) == found[i] {
          CleanOfCleanAbs(found[i]);
        }
      } else {
        DirIsCleanAbs(found[0]);
      }
    } else {
      var folder := Abs(fs.cwd, targets[0]);
      AbsIsCleanAbs(fs.cwd, targets[0]);
      if fs.stat(folder).RegularFile? {
        DirIsCleanAbs(folder);
      }
    }
  }

  /** Against a clean absolute root, relativising clean absolute paths never fails, gives one
      path per find in the same order, and each joined back onto the root is the find. */
  lemma RelativiseRoundTrip(root: string, found: seq<string>)
    requires IsCleanAbs(root)
    requires forall i :: 0 <= i < |found| ==> IsCleanAbs(found[i])
    ensures Relativise(root, found).Success?
    ensures |Relativise(root, found).value| == |found|
    ensures forall i :: 0 <= i < |found| ==> JoinPath(root, Relativise(root, found).value[i]) == found[i]
  {
    var steps := RelSteps(root, found);
    forall k | 0 <= k < |found| ensures steps[k].Success? && |steps[k].value| == 1
      && JoinPath(root, steps[k].value[0]) == found[k]
    {
      RelJoinRoundTrip(root, found[k]);
    }
    CollectSingles(steps);
  }

  /** When getTestScripts succeeds it reports exactly the finds of the targets, one-for-one and
      in order, as paths that joined onto the root give the finds back. */
  lemma DiscoverRoundTrip(fs: FileSystem, targets: seq<string>, includeRe: Pattern, excludeRe: Pattern)
    requires |targets| > 0
    requires Discover(fs, targets, includeRe, excludeRe).Success?
    ensures includeRe.Compiled? && excludeRe.Compiled?
    ensures var found := TargetsFound(fs, targets, includeRe.matches, excludeRe.matches);
      var (root, files) := Discover(fs, targets, includeRe, excludeRe).value;
      && found.Success? && RootFor(fs, targets, found.value) == Success(root)
      && |files| == |found.value|
      && forall i :: 0 <= i < |files| ==>
           JoinPath(root, files[i]) == found.value[i] && Selected(includeRe.matches, excludeRe.matches, found.value[i])
  {
    var found := TargetsFound(fs, targets, includeRe.matches, excludeRe.matches).value;
    TargetsFoundAllSelected(fs, targets, includeRe.matches, excludeRe.matches);
    if found != [] {
      RootIsCleanAbs(fs, targets, found);
      RelativiseRoundTrip(RootFor(fs, targets, found).value, found);
    }
  }

  /** The loop over the targets fails only when a target cannot be stat'ed or a walk reports
      an error. */
  lemma TargetsFoundErrors(fs: FileSystem, targets: seq<string>, included: string -> bool, excluded: string -> bool)
    requires TargetsFound(fs, targets, included, excluded).Failure?
    ensures TargetsFound(fs, targets, included, excluded).error.TargetError?
         || TargetsFound(fs, targets, included, excluded).error.WalkError?
  {
    var steps := TargetSteps(fs, targets, included, excluded);
    CollectOutcome(steps);
    var k :| 0 <= k < |steps| && steps[k] == Failure(Collect(steps).error)
             && forall k' :: 0 <= k' < k ==> steps[k'].Success?;
    var folder := Abs(fs.cwd, targets[k]);
    if fs.stat(folder).Directory? {
      var walk := WalkSteps(folder, fs.stat(folder).walk, included, excluded);
      CollectOutcome(walk);
      var j :| 0 <= j < |walk| && walk[j] == Failure(Collect(walk).error)
               && forall j' :: 0 <= j' < j ==> walk[j'].Success?;
    }
  }

  /** The errors that getTestScripts can return only come from the patterns, the targets' stat
      and the walks: with the file system fixed, the second stat of a single target and the
      relativisation never fail. */
  lemma DiscoverErrors(fs: FileSystem, targets: seq<string>, includeRe: Pattern, excludeRe: Pattern)
    requires |targets| > 0
    requires Discover(fs, targets, includeRe, excludeRe).Failure?
    ensures var e := Discover(fs, targets, includeRe, excludeRe).error;
      e.IncludeError? || e.ExcludeError? || e.TargetError? || e.WalkError?
  {
    if includeRe.Compiled? && excludeRe.Compiled? {
      var found := TargetsFound(fs, targets, includeRe.matches, excludeRe.matches);
      if found.Failure? {
        TargetsFoundErrors(fs, targets, includeRe.matches, excludeRe.matches);
      } else {
        TargetsFoundAllSelected(fs, targets, includeRe.matches, excludeRe.matches);
        if |targets| == 1 {
          var steps := TargetSteps(fs, targets, includeRe.matches, excludeRe.matches);
          CollectOutcome(steps);
          assert steps[0].Success?;
        }
        var root := RootFor(fs, targets, found.value);
        assert root.Success?;
        if found.value != [] {
          RootIsCleanAbs(fs, targets, found.value);
          RelativiseRoundTrip(root.value, found.value);
        }
      }
    }
  }
}
