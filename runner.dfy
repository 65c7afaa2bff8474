/** The Runner of lib/runner.go: its fields, discovery and ordering of the test scripts, the
    loop that runs them, the collection of the failed results, the summaries and RunCommand's
    control flow. */
module TestRunner {
  import opened Wrappers
  import opened FilePath
  import opened PathUtil
  import opened TestResults
  import opened Execution
  import opened Ordering
  import opened Discovery

  /** A time.Duration, as the text %v prints for it. */
  datatype Duration = Duration(text: string)

  /** What RunCommand returns when it does not return nil. */
  datatype RunError =
    | DiscoveryFailed(error: DiscoveryError)  // returned unchanged by lib/runner.go:64-66
    | TestsFailed(count: nat)                 // "%d tests failed", lib/runner.go:94

  /** What outputResultsJSON marshals (lib/runner.go:336-363). */
  datatype JsonReport = JsonReport(passed: int, failed: int, seed: int, inOrder: bool, failedList: seq<TestResult>)

  /** What outputResults prints (lib/runner.go:319-334): one line per failed test with its
      exit code, the counts, and the seed when the run was shuffled. */
  datatype TextReport = TextReport(failedLines: seq<(string, int)>, passed: int, failed: int, seedUsed: Option<int>)

  /** The file name and exit code of each failed result, in order. */
  function FailedLines(failed: seq<TestResult>): (r: seq<(string, int)>)
    ensures |r| == |failed|
    ensures forall i :: 0 <= i < |failed| ==> r[i] == (failed[i].testFile, failed[i].exitCode)
  {
    seq(|failed|, i requires 0 <= i < |failed| => (failed[i].testFile, failed[i].exitCode))
  }

  /** What RunCommand shows after the discovery: the test root and files of a dry run, or the
      summary of the run. */
  datatype Report = NoReport | DryRunListing(root: string, files: seq<string>) | Text(text: TextReport) | Json(json: JsonReport)

  /** getTestScriptsWithOrder (lib/runner.go:97-107): the discovered scripts, sorted and then
      shuffled unless the run is in order. */
  function OrderedDiscovery(fs: FileSystem, targets: seq<string>, includeRe: Pattern, excludeRe: Pattern,
                            inOrder: bool, rng: (int, nat) -> nat, seed: int)
    : Result<(string, seq<string>), DiscoveryError>
    requires |targets| > 0
  {
    match Discover(fs, targets, includeRe, excludeRe)
      case Failure(e) => Failure(e)
      case Success((root, files)) => Success((root, Ordered(files, inOrder, rng, seed)))
  }

  /** The results runAllTests appends (lib/runner.go:210-219): one runSingleTest per file, in
      order, each run at filepath.Join(testFolder, testFile). */
  function Results(files: seq<string>, folder: string, timeoutText: string, exec: string -> ProcessOutcome)
    : (r: seq<TestResult>)
    ensures |r| == |files|
  {
    seq(|files|, i requires 0 <= i < |files| => RunSingleTest(files[i], timeoutText, exec(JoinPath(folder, files[i]))))
  }

  class Runner {
    var testTargets: seq<string>
    /** The include and exclude patterns, as regexp.Compile makes them of the flags' strings. */
    var includeRe: Pattern
    var excludeRe: Pattern
    var timeout: Duration
    var inOrder: bool
    var randomSeed: int
    var jsonOutput: bool
    var verbose: bool
    var dryRun: bool

    var testResults: seq<TestResult>
    var failedTestResults: seq<TestResult>

    /** NewRunner (lib/runner.go:36-58). */
    constructor (testTargets: seq<string>, includeRe: Pattern, excludeRe: Pattern, timeout: Duration,
                 inOrder: bool, randomSeed: int, jsonOutput: bool, verbose: bool, dryRun: bool)
      ensures this.testTargets == testTargets && this.includeRe == includeRe && this.excludeRe == excludeRe
      ensures this.timeout == timeout && this.inOrder == inOrder && this.randomSeed == randomSeed
      ensures this.jsonOutput == jsonOutput && this.verbose == verbose && this.dryRun == dryRun
      ensures testResults == [] && failedTestResults == []
    {
      this.testTargets := testTargets;
      this.includeRe := includeRe;
      this.excludeRe := excludeRe;
      this.timeout := timeout;
      this.inOrder := inOrder;
      this.randomSeed := randomSeed;
      this.jsonOutput := jsonOutput;
      this.verbose := verbose;
      this.dryRun := dryRun;
      testResults := [];
      failedTestResults := [];
    }

    /** getTestScripts (lib/runner.go:109-199). */
    method GetTestScripts(fs: FileSystem) returns (res: Result<(string, seq<string>), DiscoveryError>)
      requires |testTargets| > 0
      ensures res == Discover(fs, testTargets, includeRe, excludeRe)
    {
      if includeRe.Malformed? {
        return Failure(IncludeError(includeRe.message));
      }
      if excludeRe.Malformed? {
        return Failure(ExcludeError(excludeRe.message));
      }
      var found := FindTests(fs, testTargets, includeRe.matches, excludeRe.matches);
      if found.Failure? {
        return Failure(found.error);
      }
      var foundTests := found.value;
      var commonPrefix: string;
      if |testTargets| > 1 {
        if |foundTests| != 1 {
          commonPrefix := CommonPathPrefix(foundTests, fs.cwd);
        } else {
          commonPrefix := Dir(foundTests[0]);
        }
      } else {
        var testFolder := Abs(fs.cwd, testTargets[0]);
        match fs.stat(testFolder) {
          case Missing(message) =>
            return Failure(RootStatError(testFolder, message));
          case Directory(_) =>
            commonPrefix := testFolder;
          case RegularFile =>
            commonPrefix := Dir(testFolder);
        }
      }
      var relative := RelativiseTests(commonPrefix, foundTests);
      if relative.Failure? {
        return Failure(relative.error);
      }
      return Success((commonPrefix, relative.value));
    }

    /** shuffleOrder (lib/runner.go:201-208): for i from len - 1 down to 1, swap entry i with the
        entry at the generator's draw in [0, i]. */
    method ShuffleOrder(list: array<string>, rng: (int, nat) -> nat)
      modifies list
      ensures list[..] == Shuffle(old(list[..]), rng, randomSeed)
    {
      var i := list.Length - 1;
      while i >= 1
        invariant -1 <= i < list.Length
        invariant ShuffleFrom(list[..], i, rng, randomSeed) == Shuffle(old(list[..]), rng, randomSeed)
        decreases i
      {
        var source := Draw(rng, randomSeed, i);
        Swap(list, i, source);
        i := i - 1;
      }
    }

    /** getTestScriptsWithOrder (lib/runner.go:97-107). */
    method GetTestScriptsWithOrder(fs: FileSystem, rng: (int, nat) -> nat)
      returns (res: Result<(string, seq<string>), DiscoveryError>)
      requires |testTargets| > 0
      ensures res == OrderedDiscovery(fs, testTargets, includeRe, excludeRe, inOrder, rng, randomSeed)
    {
      var scripts := GetTestScripts(fs);
      if scripts.Failure? {
        return Failure(scripts.error);
      }
      var (testRoot, testFiles) := scripts.value;
      var list := new string[|testFiles|](i requires 0 <= i < |testFiles| => testFiles[i]);
      assert list[..] == testFiles;
      SortInPlace(list);
      if !inOrder {
        ShuffleOrder(list, rng);
      }
      return Success((testRoot, list[..]));
    }

    /** runAllTests (lib/runner.go:210-219): run each file in order and append its result. The
        process outcome of each test is given by exec, keyed by the path that is run. */
    method RunAllTests(testFiles: seq<string>, testFolder: string, exec: string -> ProcessOutcome)
      modifies this`testResults
      ensures testResults == old(testResults) + Results(testFiles, testFolder, timeout.text, exec)
    {
      for i := 0 to |testFiles|
        invariant testResults == old(testResults) + Results(testFiles[..i], testFolder, timeout.text, exec)
      {
        var result := RunSingleTest(testFiles[i], timeout.text, exec(JoinPath(testFolder, testFiles[i])));
        assert Results(testFiles[..i + 1], testFolder, timeout.text, exec)
            == Results(testFiles[..i], testFolder, timeout.text, exec) + [result];
        testResults := testResults + [result];
      }
      assert testFiles[..|testFiles|] == testFiles;
    }

    /** collectFailedTestResults (lib/runner.go:311-317). */
    method CollectFailedTestResults()
      modifies this`failedTestResults
      ensures failedTestResults == old(failedTestResults) + Failed(testResults)
    {
      for i := 0 to |testResults|
        invariant failedTestResults == old(failedTestResults) + Failed(testResults[..i])
      {
        var result := testResults[i];
        assert testResults[..i + 1][..i] == testResults[..i];
        if !result.success {
          failedTestResults := failedTestResults + [result];
        }
      }
      assert testResults[..|testResults|] == testResults;
    }

    /** The counts and seed of outputResultsJSON (lib/runner.go:337-342, 345-357). Once the
        failed results are exactly those of the run, the counts are those of the failed and
        the passed results. */
    function OutputResultsJSON(): (r: JsonReport)
      reads this
      ensures r.failed == |failedTestResults| && r.passed == |testResults| - |failedTestResults|
      ensures r.seed == (if inOrder then -1 else randomSeed) && r.inOrder == inOrder
      ensures r.failedList == failedTestResults
      ensures failedTestResults == Failed(testResults) ==> r.passed == |Passed(testResults)| >= 0
    {
      FailedPassedCount(testResults);
      JsonReport(|testResults| - |failedTestResults|, |failedTestResults|,
                 if inOrder then -1 else randomSeed, inOrder, failedTestResults)
    }

    /** The data outputResults prints (lib/runner.go:319-334). */
    function OutputResults(): (r: TextReport)
      reads this
      ensures |r.failedLines| == |failedTestResults|
      ensures forall i :: 0 <= i < |failedTestResults| ==>
        r.failedLines[i] == (failedTestResults[i].testFile, failedTestResults[i].exitCode)
      ensures r.failed == |failedTestResults| && r.passed == |testResults| - |failedTestResults|
      ensures r.seedUsed == (if inOrder then None else Some(randomSeed))
      ensures failedTestResults == Failed(testResults) ==> r.passed == |Passed(testResults)| >= 0
    {
      FailedPassedCount(testResults);
      TextReport(FailedLines(failedTestResults), |testResults| - |failedTestResults|, |failedTestResults|,
                 if inOrder then None else Some(randomSeed))
    }

    /** RunCommand (lib/runner.go:62-95): a discovery error is returned unchanged; a dry run runs
        nothing and returns nil; otherwise every script is run and the error says how many
        failed, or is nil when none did. */
    method RunCommand(fs: FileSystem, rng: (int, nat) -> nat, exec: string -> ProcessOutcome)
      returns (err: Option<RunError>, report: Report)
      requires |testTargets| > 0
      modifies this`testResults, this`failedTestResults
      ensures var scripts := old(OrderedDiscovery(fs, testTargets, includeRe, excludeRe, inOrder, rng, randomSeed));
        scripts.Failure? ==>
          && err == Some(DiscoveryFailed(scripts.error)) && report == NoReport
          && testResults == old(testResults) && failedTestResults == old(failedTestResults)
      ensures var scripts := old(OrderedDiscovery(fs, testTargets, includeRe, excludeRe, inOrder, rng, randomSeed));
        scripts.Success? && dryRun ==>
          && err == None
          && report == (if jsonOutput then NoReport else DryRunListing(scripts.value.0, scripts.value.1))
          && testResults == old(testResults) && failedTestResults == old(failedTestResults)
      ensures var scripts := old(OrderedDiscovery(fs, testTargets, includeRe, excludeRe, inOrder, rng, randomSeed));
        scripts.Success? && !dryRun ==>
          && testResults == old(testResults) + Results(scripts.value.1, scripts.value.0, timeout.text, exec)
          && failedTestResults == old(failedTestResults) + Failed(testResults)
          && report == (if jsonOutput then Json(OutputResultsJSON()) else Text(OutputResults()))
          && (err == None <==> failedTestResults == [])
          && (err != None ==> err == Some(TestsFailed(|failedTestResults|)))
    {
      var scripts := GetTestScriptsWithOrder(fs, rng);
      if scripts.Failure? {
        return Some(DiscoveryFailed(scripts.error)), NoReport;
      }
      var (testRoot, testFiles) := scripts.value;
      if dryRun {
        report := if jsonOutput then NoReport else DryRunListing(testRoot, testFiles);
        return None, report;
      }
      err, report := RunAndReport(testFiles, testRoot, exec);
    }

    /** The end of RunCommand (lib/runner.go:84-94): run the scripts, collect the failures, build
        the summary, and report how many failed. */
    method RunAndReport(testFiles: seq<string>, testRoot: string, exec: string -> ProcessOutcome)
      returns (err: Option<RunError>, report: Report)
      modifies this`testResults, this`failedTestResults
      ensures testResults == old(testResults) + Results(testFiles, testRoot, timeout.text, exec)
      ensures failedTestResults == old(failedTestResults) + Failed(testResults)
      ensures report == (if jsonOutput then Json(OutputResultsJSON()) else Text(OutputResults()))
      ensures err == None <==> failedTestResults == []
      ensures err != None ==> err == Some(TestsFailed(|failedTestResults|))
    {
      RunAllTests(testFiles, testRoot, exec);
      CollectFailedTestResults();
      if jsonOutput {
        report := Json(OutputResultsJSON());
      } else {
        report := Text(OutputResults());
      }
      if |failedTestResults| == 0 {
        return None, report;
      }
      return Some(TestsFailed(|failedTestResults|)), report;
    }
  }

  // ---------------------------------------------------------------------------------------
  // The loops of getTestScripts

  /** The loop over the targets (lib/runner.go:119-159): stat each target made absolute, keep a
      file target that passes both patterns, walk a directory target; the first error is
      returned. */
  method FindTests(fs: FileSystem, testTargets: seq<string>, included: string -> bool, excluded: string -> bool)
    returns (res: Result<seq<string>, DiscoveryError>)
    ensures res == TargetsFound(fs, testTargets, included, excluded)
  {
    ghost var steps := TargetSteps(fs, testTargets, included, excluded);
    var foundTests: seq<string> := [];
    for t := 0 to |testTargets|
      invariant Collect(steps[..t]) == Success(foundTests)
    {
      CollectNext(steps, t);
      var testFolder := Abs(fs.cwd, testTargets[t]);
      match fs.stat(testFolder) {
        case Missing(message) =>
          CollectFails(steps, t + 1);
          return Failure(TargetError(testFolder, message));
        case RegularFile =>
          assert steps[t] == Success(if Selected(included, excluded, testFolder) then [testFolder] else []);
          if included(testFolder) && !excluded(testFolder) {
            foundTests := foundTests + [testFolder];
          } else {
            assert foundTests + [] == foundTests;
          }
        case Directory(walk) =>
          var walked := WalkFolder(testFolder, walk, included, excluded);
          assert steps[t] == walked;
          if walked.Failure? {
            CollectFails(steps, t + 1);
            return Failure(walked.error);
          }
          foundTests := foundTests + walked.value;
      }
    }
    assert steps[..|testTargets|] == steps;
    return Success(foundTests);
  }

  /** The callback that filepath.Walk calls for each visit (lib/runner.go:140-155). */
  method WalkFolder(testFolder: string, walk: seq<WalkEvent>, included: string -> bool, excluded: string -> bool)
    returns (res: Result<seq<string>, DiscoveryError>)
    ensures res == WalkFound(testFolder, walk, included, excluded)
  {
    ghost var steps := WalkSteps(testFolder, walk, included, excluded);
    var foundTests: seq<string> := [];
    for k := 0 to |walk|
      invariant Collect(steps[..k]) == Success(foundTests)
    {
      CollectNext(steps, k);
      match walk[k] {
        case VisitError(message) =>
          CollectFails(steps, k + 1);
          return Failure(WalkError(message));
        case Visit(name, isDir) =>
          var path := JoinPath(testFolder, name);
          assert steps[k] == Success(if !isDir && Selected(included, excluded, path) then [path] else []);
          if !isDir && included(path) && !excluded(path) {
            foundTests := foundTests + [path];
          } else {
            assert foundTests + [] == foundTests;
          }
      }
    }
    assert steps[..|walk|] == steps;
    return Success(foundTests);
  }

  /** The loop of lib/runner.go:191-197: overwrite each found path with its path relative to
      the root; the first failure is returned. */
  method RelativiseTests(commonPrefix: string, foundTests: seq<string>)
    returns (res: Result<seq<string>, DiscoveryError>)
    ensures res == Relativise(commonPrefix, foundTests)
  {
    ghost var steps := RelSteps(commonPrefix, foundTests);
    var tests := foundTests;
    for i := 0 to |tests|
      invariant |tests| == |foundTests| && tests[i..] == foundTests[i..]
      invariant Collect(steps[..i]) == Success(tests[..i])
    {
      CollectNext(steps, i);
      assert tests[i] == foundTests[i];
      var relPath := Rel(commonPrefix, tests[i]);
      if relPath.Failure? {
        CollectFails(steps, i + 1);
        return Failure(RelError(tests[i], commonPrefix, relPath.error));
      }
      Seqs.UpdateSplit(tests, i, relPath.value);
      tests := tests[i := relPath.value];
    }
    assert steps[..|foundTests|] == steps;
    assert tests[..|foundTests|] == tests;
    return Success(tests);
  }

  // ---------------------------------------------------------------------------------------
  // Properties of a run

  /** There is one result per file, in file order, each named after its file, and the failed
      results of a fresh runner are exactly the results that did not succeed, in the same order;
      so the passed count is the number of results that succeeded. */
  lemma ResultsPerFile(files: seq<string>, folder: string, timeoutText: string, exec: string -> ProcessOutcome)
    ensures var rs := Results(files, folder, timeoutText, exec);
      && |rs| == |files|
      && (forall i :: 0 <= i < |files| ==> rs[i] == RunSingleTest(files[i], timeoutText, exec(JoinPath(folder, files[i]))))
      && (forall i :: 0 <= i < |files| ==> rs[i].testFile == files[i])
      && |rs| - |Failed(rs)| == |Passed(rs)|
      && Seqs.SubsequenceOf(Failed(rs), rs)
  {
    var rs := Results(files, folder, timeoutText, exec);
    forall i | 0 <= i < |files| ensures rs[i].testFile == files[i] {
      RunSingleTestSuccess(files[i], timeoutText, exec(JoinPath(folder, files[i])));
    }
    FailedPassedCount(rs);
    FailedInOrder(rs);
  }

  /** The scripts that are run are exactly the scripts that were found: when discovery and
      ordering succeed, joining each returned file onto the root gives one of the found paths,
      and every found path is given by one of them; each passes both patterns. */
  lemma RunsWhatWasFound(fs: FileSystem, targets: seq<string>, includeRe: Pattern, excludeRe: Pattern,
                         inOrder: bool, rng: (int, nat) -> nat, seed: int)
    requires |targets| > 0
    requires OrderedDiscovery(fs, targets, includeRe, excludeRe, inOrder, rng, seed).Success?
    ensures includeRe.Compiled? && excludeRe.Compiled?
    ensures var found := TargetsFound(fs, targets, includeRe.matches, excludeRe.matches);
      var (root, files) := OrderedDiscovery(fs, targets, includeRe, excludeRe, inOrder, rng, seed).value;
      && found.Success? && |files| == |found.value|
      && (forall i :: 0 <= i < |files| ==> JoinPath(root, files[i]) in found.value)
      && (forall p :: p in found.value ==> exists i :: 0 <= i < |files| && JoinPath(root, files[i]) == p)
      && (forall p :: p in found.value ==> Selected(includeRe.matches, excludeRe.matches, p))
  {
    DiscoverRoundTrip(fs, targets, includeRe, excludeRe);
    var found := TargetsFound(fs, targets, includeRe.matches, excludeRe.matches).value;
    var (root, rels) := Discover(fs, targets, includeRe, excludeRe).value;
    var files := Ordered(rels, inOrder, rng, seed);
    OrderedPermutes(rels, inOrder, rng, seed);
    PermutedJoins(root, rels, files, found);
    forall p | p in found ensures Selected(includeRe.matches, excludeRe.matches, p) {
      var j :| 0 <= j < |found| && found[j] == p;
    }
  }

  /** Paths that join onto the root to give the found paths, once permuted, still give each
      found path and nothing else. */
  lemma PermutedJoins(root: string, rels: seq<string>, files: seq<string>, found: seq<string>)
    requires |rels| == |found| && multiset(files) == multiset(rels)
    requires forall j :: 0 <= j < |rels| ==> JoinPath(root, rels[j]) == found[j]
    ensures |files| == |found|
    ensures forall i :: 0 <= i < |files| ==> JoinPath(root, files[i]) in found
    ensures forall p :: p in found ==> exists i :: 0 <= i < |files| && JoinPath(root, files[i]) == p
  {
    assert |files| == |multiset(files)| == |multiset(rels)| == |rels|;
    forall i | 0 <= i < |files| ensures JoinPath(root, files[i]) in found {
      assert files[i] in multiset(rels) by {
        assert files[i] in multiset(files);
      }
      var j :| 0 <= j < |rels| && rels[j] == files[i];
      assert found[j] == JoinPath(root, files[i]);
    }
    forall p | p in found ensures exists i :: 0 <= i < |files| && JoinPath(root, files[i]) == p {
      var j :| 0 <= j < |found| && found[j] == p;
      assert rels[j] in multiset(files) by {
        assert rels[j] in multiset(rels);
      }
      var i :| 0 <= i < |files| && files[i] == rels[j];
      assert JoinPath(root, files[i]) == p;
    }
  }

  /** A run in order executes the scripts sorted by relative path. */
  lemma InOrderIsSorted(fs: FileSystem, targets: seq<string>, includeRe: Pattern, excludeRe: Pattern,
                        rng: (int, nat) -> nat, seed: int)
    requires |targets| > 0
    requires OrderedDiscovery(fs, targets, includeRe, excludeRe, true, rng, seed).Success?
    ensures var (root, files) := OrderedDiscovery(fs, targets, includeRe, excludeRe, true, rng, seed).value;
      Sorted(files) && root == Discover(fs, targets, includeRe, excludeRe).value.0
  {
    var rels := Discover(fs, targets, includeRe, excludeRe).value.1;
    OrderedPermutes(rels, true, rng, seed);
  }
}
