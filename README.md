# testbrain test-run engine, in Dafny

testbrain runs a folder of shell test scripts and reports which ones failed. This project
models the engine behind that, as the Go package `lib` and the older command `cmd/run.go`
implement it:

- **Common root.** `CommonPathPrefix` finds the deepest directory shared by a set of paths.
  It is an imperative method over the split paths, proved equal to `CommonRoot`, the
  segment-wise longest common prefix. Lemmas prove that the root has the right shape, is an
  ancestor of every path, is the deepest such ancestor, ignores trailing separators, and
  gives the expected answer for each case of the package's own test table.
- **Discovery.** `getTestScripts`:
  - compiles the include and exclude patterns;
  - stats each target;
  - keeps a file target, or walks a directory target, keeping the files that pass both
    patterns;
  - chooses the root in one of four ways;
  - rewrites every find relative to that root.

  It is modelled as loops (`FindTests`, `WalkFolder`, `RelativiseTests`) proved against
  step-list functions (`TargetsFound`, `WalkFound`, `Relativise`), which are all instances of
  one "first failure wins" fold, `Collect`.
- **Ordering.** `sort.Strings` is an in-place insertion sort. It is proved equal to the one
  sorted permutation of its input, so it stands for Go's sort whatever algorithm that uses.
  shuffleOrder is the in-place Fisher–Yates loop, driven by a generator given as a function
  of the seed and the step.
- **One test's result.** runSingleTest and getErrorCode decode the outcome of one process
  (start failure, timeout, or Wait's result) into a `TestResult`. `ErrorTestResult` and
  `UnknownExitCode` come from `lib/test_result.go`.
- **The Runner class.** Its fields are those of the Go struct. `RunAllTests` and
  `CollectFailedTestResults` append to `testResults` and `failedTestResults`.
  outputResults and outputResultsJSON yield the counts, seed and failure lines they print.
  `RunCommand`'s result is stated for the discovery error, the dry run and the real run.
- **The older `cmd/run.go` runner.** It has its own `.sh` filter, result loop, failure
  partition and counts. It also decodes exit codes differently from lib, and a lemma pins
  down where the two differ.

The operating system is a parameter of the model:
- the working directory, and what `os.Stat` and `filepath.Walk` see at each path, come in
  as a `FileSystem` value;
- each compiled regular expression is a predicate;
- each test process is an outcome value;
- the random generator is a function.

`path/filepath` (`Split`, `Join`, `Clean`, `Abs`, `Dir`, `Rel`) is modelled on Unix paths
in `filepath.dfy`, as far as the engine uses it.

## Model

| member | source | states |
|---|---|---|
| `PathUtil.CommonPathPrefix` | lib/path_util.go:10-45 | The loops (split every absolute path, track the shortest, scan segment by segment, stop at the first mismatch) return exactly `CommonRoot` of the paths, with no precondition on the input |
| `PathUtil.CommonRootShape` | lib/path_util.go:11-14 | The result is `""` exactly when no path is given; otherwise it is a clean absolute path, so it keeps the leading `/` (lib/path_util.go:30-33) |
| `PathUtil.CommonRootIsAncestor` | lib/path_util.go:34-43 | The root's elements are a prefix of every path's elements (so never more than the shortest), and the scan stops right after them: some path ends there or differs there from the first |
| `PathUtil.CommonRootIsDeepest` | lib/path_util.go:34-44 | Every clean absolute directory that is an ancestor-or-self of all the paths is an ancestor-or-self of the root |
| `PathUtil.CommonRootOfAncestor` | lib/path_util.go:16-26 | When one path is an ancestor-or-self of all the others, the root is that path made absolute (a single path, or copies of one path, give that path) |
| `PathUtil.CommonRootTrailingSeparator` | lib/path_util.go:18-22 | Adding a trailing `/` to any one path leaves the root unchanged, since `Abs` cleans it away |
| `PathUtil.AbsTrailingSeparator` | lib/path_util.go:18 | `filepath.Abs(p + "/") == filepath.Abs(p)` for every non-empty p |
| `PathUtil.TableMismatch` | lib/path_util_test.go:18-22 | `/a/b/c`, `/a/b/d` give `/a/b` |
| `PathUtil.TableSame` | lib/path_util_test.go:23-27 | `/a/b/c` twice gives `/a/b/c` |
| `PathUtil.TableSingle` | lib/path_util_test.go:28-32 | `/a/b/c` alone gives `/a/b/c` |
| `PathUtil.TableDirectory` | lib/path_util_test.go:33-37 | `/a/b`, `/a/b/c/d` give the ancestor `/a/b` |
| `PathUtil.TableTrailing` | lib/path_util_test.go:38-42 | `/a/b`, `/a/b/` give `/a/b` |
| `TestResults.ErrorTestResult` | lib/test_result.go:15-22 | Keeps the file name and the error's message as output; success is false and the exit code is `UnknownExitCode`, which is -1 (lib/test_result.go:12) |
| `TestResults.ErrorTestResultExactly` | lib/test_result.go:15-22 | A result is an `ErrorTestResult` of its own file and output exactly when it failed with the unknown exit code |
| `TestResults.FailedMembers` | lib/runner.go:311-317 | An entry is in the failed list exactly when it is in the results and did not succeed; likewise the passed list for the successes |
| `TestResults.FailedInOrder` | lib/runner.go:311-317 | The failed entries, and the passed ones, keep their order in the results (subsequence) |
| `TestResults.FailedPassedCount` | lib/runner.go:323-324 | Failed and passed entries together account for every result, so total minus failed is the number passed |
| `TestResults.FailedAppend` | lib/runner.go:311-317 | Partitioning a concatenation is concatenating the partitions |
| `Execution.GetErrorCode` | lib/runner.go:272-298 | Success gives (0, no error); otherwise the exit code is the wait status's exit status when Wait returned an exit error with a status, else -1; an error is bubbled up exactly for a failed run whose wait error is not an exit error with a status, and it carries that error's message |
| `Execution.RunSingleTestSuccess` | lib/runner.go:238-269 | The result names the test file; it succeeds exactly when Wait returned first with a successful process state, and then has exit code 0 and the captured output |
| `Execution.RunSingleTestStartFailed` | lib/runner.go:238-241 | A failed Start gives `ErrorTestResult` with Start's message |
| `Execution.RunSingleTestTimedOut` | lib/runner.go:254-259 | A timeout gives a failure with exit code -1 whose output is the output so far followed by, and so ending in, `Killed by testbrain: Timed out after <timeout>` |
| `Execution.RunSingleTestFinished` | lib/runner.go:260-267 | When Wait returns first: `ErrorTestResult` with the wait error's message exactly when getErrorCode bubbles an error up; otherwise the process state's success, the captured output and getErrorCode's code |
| `Ordering.SortInPlace` | lib/runner.go:102 | The array ends as `SortStrings` of its old contents, which is sorted and a permutation of them |
| `Ordering.SinkDown` | lib/runner.go:102 | One insertion pass: the first i+1 entries end sorted and the array's multiset is unchanged |
| `Ordering.SortedUnique` | lib/runner.go:102 | Two sorted lists with the same multiset are equal, so any correct sort gives the same list |
| `Ordering.SortStringsOfSorted` | lib/runner.go:102 | A sorted permutation of s is `SortStrings(s)`, and sorting a sorted list changes nothing |
| `Ordering.LexLeTotal` | lib/runner.go:102 | Go's string order is total |
| `Ordering.LexLeAntisymmetric` | lib/runner.go:102 | Go's string order is antisymmetric |
| `Ordering.LexLeTransitive` | lib/runner.go:102 | Go's string order is transitive |
| `Ordering.Swap` | lib/runner.go:206 | The parallel assignment exchanges two cells and nothing else |
| `Ordering.ShufflePermutes` | lib/runner.go:201-208 | The shuffle keeps length and multiset, and leaves lists of at most one entry unchanged |
| `Ordering.ShuffleDraws` | lib/runner.go:201-208 | Generators whose draws agree at every step give the same order, so the same seed gives the same order |
| `Ordering.ShuffleFromIdentity` | lib/runner.go:204-207 | If every draw at step i is i itself, the list keeps its order |
| `Ordering.OrderedPermutes` | lib/runner.go:97-107 | The ordered list is a permutation of the discovered one, and sorted when the run is in order |
| `TestRunner.Runner.constructor` | lib/runner.go:36-58 | Every flag field takes its argument; both result lists start empty |
| `TestRunner.Runner.GetTestScripts` | lib/runner.go:109-199 | The method returns exactly `Discover` of the file system, targets and patterns |
| `TestRunner.FindTests` | lib/runner.go:119-159 | The loop over the targets returns exactly `TargetsFound`: every target's finds in target order, or the first stat or walk error |
| `TestRunner.WalkFolder` | lib/runner.go:140-158 | The walk callback's appends return exactly `WalkFound` of the walk's events |
| `TestRunner.RelativiseTests` | lib/runner.go:191-197 | Overwriting each find with its relative path returns exactly `Relativise`: one relative path per find, or the first `Rel` error |
| `TestRunner.Runner.ShuffleOrder` | lib/runner.go:201-208 | The down-counting swap loop leaves the array as `Shuffle` of its old contents under the runner's seed |
| `TestRunner.Runner.GetTestScriptsWithOrder` | lib/runner.go:97-107 | Returns the discovery's error unchanged, or its root with the files sorted and, unless in order, shuffled (`OrderedDiscovery`) |
| `TestRunner.Runner.RunAllTests` | lib/runner.go:210-219 | Appends one runSingleTest result per file, in file order, each run at `filepath.Join(testFolder, testFile)` |
| `TestRunner.Runner.CollectFailedTestResults` | lib/runner.go:311-317 | Appends exactly the results that did not succeed, in order |
| `TestRunner.Runner.OutputResultsJSON` | lib/runner.go:336-357 | failed is the failed list's length, passed the total minus that; the seed is -1 exactly when in order and the runner's seed otherwise; with the failed list being the run's failures, passed is the number of successes |
| `TestRunner.Runner.OutputResults` | lib/runner.go:319-334 | One line per failed result with its file and exit code, the same two counts, and the seed shown exactly when the run was shuffled |
| `TestRunner.Runner.RunCommand` | lib/runner.go:62-95 | A discovery error is returned unchanged and nothing runs; a dry run returns nil, runs nothing and lists root and files only without JSON; otherwise every ordered file is run, the failures are collected, and the error is nil exactly when none failed and otherwise carries their count |
| `TestRunner.Runner.RunAndReport` | lib/runner.go:84-94 | Runs, collects, builds the JSON or text summary, and returns nil exactly when the failed list is empty |
| `TestRunner.ResultsPerFile` | lib/runner.go:210-219 | One result per file, in file order, each naming its file; total minus failed equals passed and the failures keep their order |
| `TestRunner.RunsWhatWasFound` | lib/runner.go:97-199 | After ordering, the root joined with each returned file is a find, every find is given by some returned file, and every find passes include and not exclude |
| `TestRunner.PermutedJoins` | lib/runner.go:102-105 | Permuting relative paths keeps the set of paths they join back to |
| `TestRunner.InOrderIsSorted` | lib/runner.go:97-107 | With inOrder the files are sorted and the root is discovery's root |
| `Discovery.DiscoverPatternError` | lib/runner.go:110-117 | A pattern that does not compile gives its error (include checked first) and no scripts or root |
| `Discovery.WalkFoundFailure` | lib/runner.go:140-143 | A walk fails exactly when it reports an error, and then with the first one |
| `Discovery.WalkFoundMembers` | lib/runner.go:144-153 | A successful walk finds exactly the visited non-directories whose joined paths pass both patterns, and they are clean absolute paths |
| `Discovery.WalkStepMember` | lib/runner.go:144-153 | One visit appends its path exactly when it is a file passing both patterns |
| `Discovery.TargetsFoundInOrder` | lib/runner.go:120-159 | The finds of a + b are the finds of a followed by the finds of b (target order, then walk order) |
| `Discovery.TargetsFoundSelected` | lib/runner.go:129-153 | Every find, explicit file or walked, matches include, does not match exclude, and is a clean absolute path |
| `Discovery.TargetsFoundAllSelected` | lib/runner.go:129-153 | The same for every index of the found list |
| `Discovery.RootForCases` | lib/runner.go:161-190 | One directory target is the root; one file target's parent is the root; several targets with one find give its parent; otherwise the `CommonRoot` of the finds, `""` when there are none |
| `Discovery.RootIsCleanAbs` | lib/runner.go:161-190 | When something was found the root is a clean absolute path, and in the common-root case an ancestor-or-self of every find |
| `Discovery.RelativiseRoundTrip` | lib/runner.go:191-197 | Against a clean absolute root, relativising clean absolute paths never fails, is one-for-one, and joining each result onto the root gives the find back |
| `Discovery.DiscoverRoundTrip` | lib/runner.go:109-199 | A successful discovery reports one file per find, in order, each joining onto the root to its find, which passes both patterns |
| `Discovery.TargetsFoundErrors` | lib/runner.go:125-158 | The target loop fails only with a stat error or a walk error |
| `Discovery.DiscoverErrors` | lib/runner.go:109-199 | Discovery fails only with a pattern, stat or walk error: the second stat and the `Rel` calls cannot fail on a fixed file system |
| `Discovery.CollectOutcome` | lib/runner.go:119-159 | A loop of steps succeeds exactly when every step does, and otherwise fails with the first failing step's error |
| `Discovery.CollectAppend` | lib/runner.go:119-159 | A successful loop's entries are its parts' entries in order |
| `Discovery.CollectMembers` | lib/runner.go:119-159 | An entry is in a successful loop's result exactly when some step appended it |
| `Discovery.CollectSingles` | lib/runner.go:191-197 | When every step gives one entry, the loop gives one entry per step, in order |
| `FilePath.RelJoinRoundTrip` | lib/runner.go:192-196 | `filepath.Rel` between clean absolute paths succeeds, and joining its answer back onto the base gives the target |
| `FilePath.AbsIsCleanAbs` | lib/runner.go:121 | `filepath.Abs` always yields a clean absolute path |
| `CmdRun.RunSingleTest` | cmd/run.go:137-174 | The method (exit code starting at -1, replaced only by an exit error's status) returns exactly `CmdResult` |
| `CmdRun.CmdResultCases` | cmd/run.go:142-173 | A failed start or a non-exit wait error gives `ErrorTestResult` with its message; otherwise success and output are copied and the code is -1 unless an exit error carried that status |
| `CmdRun.CmdVersusLib` | cmd/run.go:152-173 | On a clean success lib records 0 and cmd records -1; an exit error without a status is an error result in lib but a plain failure in cmd; a failure with no wait error or with a status is decoded the same by both |
| `CmdRun.ShellScriptsExactly` | cmd/run.go:76-81 | A name is kept exactly when it is listed and ends in `.sh`, and the kept names keep listing order |
| `CmdRun.SelectScripts` | cmd/run.go:76-81 | The suffix loop returns exactly `ShellScripts` of the listing |
| `CmdRun.RunScripts` | cmd/run.go:87-101 | Appends exactly one result per kept file, in order, each run at `path.Join(testFolder, name)` |
| `CmdRun.FailedResults` | cmd/run.go:104-109 | Returns exactly the results with success false, in order |
| `CmdRun.RunAllTests` | cmd/run.go:69-135 | A listing error gives the "Could not open test folder" message; otherwise scripts, results, failures and both counts (passed = total - failed, failed = number of failures) |
| `CmdRun.SummaryCounts` | cmd/run.go:117-128 | One result per script naming it; total minus failed equals the number passed; failures keep their order |

## Left out

- Process execution is not modelled:
  - starting the process, `exec.CommandContext`, the context timeout, the goroutine, and the
    `select` race between the timer and `Wait`;
  - killing the process;
  - the `TESTBRAIN_TIMEOUT` environment variable (lib/runner.go:222-266);
  - the `time.AfterFunc` timer of cmd/run.go:146-151.

  These are concurrency and operating-system effects. Their result comes in as a
  `ProcessOutcome` (lib) or a `Completion` (cmd). In cmd a kill's note is part of the given
  output.
- `math/rand`: the generator is a function `rng(seed, step)`, and a draw is taken modulo
  i + 1. Go's sequence of draws, and the order it gives for a particular seed, cannot be
  reproduced.
- `regexp.Compile` and `MatchString`: a `Pattern` is either a predicate or the compile
  error's message.
- The file system is given data:
  - `os.Stat` and `filepath.Walk` are a `FileSystem` value;
  - a walk is the list of callback calls in Walk's order, with names relative to the walked
    folder;
  - the file system does not change between the two stats of a single target.
- `os.Getwd` is a given absolute `cwd`. `filepath.Abs` therefore cannot fail, and the
  "Error making absolute" branches (lib/path_util.go:19-21, lib/runner.go:122-124,
  lib/runner.go:178-180) cannot be reached.
- For the same reason, the error branch after the `CommonPathPrefix` call
  (lib/runner.go:166-168) cannot be reached.
- `RootFor` / `Discover` require at least one target: with none, lib/runner.go:177 indexes
  past the end and panics.
- `CommonPathPrefix` starts its shortest-length tracker undefined (-1) instead of Go's
  largest int, since integers are unbounded. The result is the same.
- The Windows branch of lib/path_util.go:30 is left out. Only `/` paths are modelled.
- Printing is not modelled: `UI`, the colour helpers and `json.Marshal`'s bytes. The summary
  functions return the counts, seed and lists they print or marshal. The verbose per-test
  lines (lib/runner.go:212-216, 300-309) and "Found %d test files" are not modelled.
- `time.Duration`'s `%v` text is an abstract string. `TESTBRAIN_TIMEOUT`'s seconds are not
  computed.
- lib/concurrent_buffer.go, cmd/root.go, main.go, cmd/version.go and cmd/test_result.go are
  not part of this model. They are concurrency wrappers and command-line plumbing.
- `Ordering.SortInPlace`: Go's `sort.Strings` algorithm is replaced by an insertion sort.
  `SortedUnique` proves that any correct sort gives the same list.
- `path/filepath` is modelled only for the inputs the engine gives it:
  - `Rel`'s round trip is proved only for a clean absolute base and target, which are the
    only arguments `getTestScripts` passes. Its error cases are written out following Go's
    rules but have no lemmas.
  - `Join` is `JoinAll` (any number of elements, used for `CommonPathPrefix`'s segments) and
    `JoinPath` (two elements).
- In cmd/run.go the listing error's `termui.PrintAndExit` is modelled as a failure carrying
  the printed message. The exit itself is not modelled.
