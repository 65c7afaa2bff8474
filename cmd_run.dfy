/** The older command-line runner of cmd/run.go: it runs the ".sh" files of one folder, in the
    order the directory listing gives, and decodes exit codes in its own way. */
module CmdRun {
  import opened Wrappers
  import opened FilePath
  import opened TestResults
  import opened Execution

  /** What happened to one script: Start failed, or Wait returned (after the timer may have
      killed the process and written its note into the output) with the process state's
      success, Wait's error and the captured output. */
  datatype Completion =
    | NotStarted(message: string)
    | Exited(success: bool, waitError: WaitError, output: string)

  /** The exit code runSingleTest records (cmd/run.go:152-162): -1 unless Wait returned an exit
      error carrying a wait status, whatever the process state's success. */
  function CmdExitCode(w: WaitError): int
  {
    if w.ExitError? && w.status.Some? then w.status.value else -1
  }

  /** runSingleTest (cmd/run.go:137-174) once the process has completed. */
  function CmdResult(testFile: string, c: Completion): TestResult
  {
    match c
      case NotStarted(message) => ErrorTestResult(testFile, message)
      case Exited(success, w, output) =>
        if w.OtherError? then ErrorTestResult(testFile, w.message)
        else TestResult(testFile, success, CmdExitCode(w), output)
  }

  /** runSingleTest (cmd/run.go:137-174): exitCode starts at -1 and is replaced only by the
      status of an exit error. */
  method RunSingleTest(testFile: string, c: Completion) returns (r: TestResult)
    ensures r == CmdResult(testFile, c)
  {
    if c.NotStarted? {
      return ErrorTestResult(testFile, c.message);
    }
    var exitCode := -1;
    var err := c.waitError;
    if !err.NoError? {
      if err.ExitError? {
        if err.status.Some? {
          exitCode := err.status.value;
        }
      } else {
        return ErrorTestResult(testFile, err.message);
      }
    }
    return TestResult(testFile, c.success, exitCode, c.output);
  }

  /** A failed start, or a wait error that is not an exit error, gives ErrorTestResult with the
      error's message; otherwise success is the process state's, the output is what was
      captured, and the exit code is -1 unless an exit error carried a status. */
  lemma CmdResultCases(testFile: string, c: Completion)
    ensures var r := CmdResult(testFile, c);
      && r.testFile == testFile
      && (c.NotStarted? ==> r == ErrorTestResult(testFile, c.message))
      && (c.Exited? && c.waitError.OtherError? ==> r == ErrorTestResult(testFile, c.waitError.message))
      && (c.Exited? && !c.waitError.OtherError? ==>
            && r.success == c.success && r.output == c.output
            && (r.exitCode != -1 ==> c.waitError.ExitError? && c.waitError.status == Some(r.exitCode)))
  {
  }

  /** The two runners decode exit codes differently: where lib/runner.go records 0 for a
      process that succeeded, cmd/run.go keeps -1 unless Wait returned an exit error with a
      status; and an exit error without a status is an error result in lib but a plain failure
      with code -1 here. For a failed process whose wait error is nil or carries a status the
      two agree. */
  lemma CmdVersusLib(testFile: string, timeoutText: string, success: bool, w: WaitError, output: string)
    ensures var cmd := CmdResult(testFile, Exited(success, w, output));
      var lib := Execution.RunSingleTest(testFile, timeoutText, Finished(success, w, output));
      && (success && w == NoError ==> lib.exitCode == 0 && cmd.exitCode == -1 && lib.success && cmd.success)
      && (!success && w.ExitError? && w.status.None? ==>
            lib == ErrorTestResult(testFile, w.message) && cmd == TestResult(testFile, false, -1, output))
      && (!success && (w.NoError? || (w.ExitError? && w.status.Some?)) ==> cmd == lib)
  {
  }

  /** The entries of a directory listing whose names end in ".sh", in listing order
      (cmd/run.go:76-81). */
  function ShellScripts(names: seq<string>): (r: seq<string>)
    ensures |r| <= |names|
    decreases |names|
  {
    if names == [] then []
    else
      var last := names[|names| - 1];
      ShellScripts(names[..|names| - 1]) + (if HasSuffix(last, ".sh") then [last] else [])
  }

  /** strings.HasSuffix. */
  predicate HasSuffix(s: string, suffix: string)
  {
    |suffix| <= |s| && s[|s| - |suffix|..] == suffix
  }

  /** A name is kept exactly when it is in the listing and ends in ".sh", and the kept names
      keep their listing order. */
  lemma {:induction false} ShellScriptsExactly(names: seq<string>, x: string)
    ensures x in ShellScripts(names) <==> x in names && HasSuffix(x, ".sh")
    ensures Seqs.SubsequenceOf(ShellScripts(names), names)
    decreases |names|
  {
    if names != [] {
      var init, last := names[..|names| - 1], names[|names| - 1];
      ShellScriptsExactly(init, x);
      assert names == init + [last];
      Seqs.SubsequenceSnoc(ShellScripts(init), init, last, HasSuffix(last, ".sh"));
    }
  }

  /** The results of the run: one per kept file, in order (cmd/run.go:87-101). */
  function CmdResults(files: seq<string>, testFolder: string, run: string -> Completion): (r: seq<TestResult>)
    ensures |r| == |files|
    ensures forall i :: 0 <= i < |files| ==> r[i] == CmdResult(files[i], run(JoinPath(testFolder, files[i])))
  {
    seq(|files|, i requires 0 <= i < |files| => CmdResult(files[i], run(JoinPath(testFolder, files[i]))))
  }

  /** What runAllTests computes and shows (cmd/run.go:69-135). */
  datatype Summary = Summary(
    testFiles: seq<string>,
    testResults: seq<TestResult>,
    failedTestResults: seq<TestResult>,
    passed: int,
    failed: int)

  /** runAllTests (cmd/run.go:69-135). The listing of the folder is given: the names of its
      entries, or the error of reading it, which ends the program with a message naming the
      folder. Each script is run at path.Join(testFolder, name), and run gives what happens. */
  method RunAllTests(testFolder: string, listing: Result<seq<string>, string>, run: string -> Completion)
    returns (res: Result<Summary, string>)
    ensures listing.Failure? ==> res == Failure("Could not open test folder: " + testFolder)
    ensures listing.Success? ==>
      && res.Success?
      && res.value.testFiles == ShellScripts(listing.value)
      && res.value.testResults == CmdResults(res.value.testFiles, testFolder, run)
      && res.value.failedTestResults == Failed(res.value.testResults)
      && res.value.passed == |res.value.testResults| - |res.value.failedTestResults|
      && res.value.failed == |res.value.failedTestResults|
  {
    if listing.Failure? {
      return Failure("Could not open test folder: " + testFolder);
    }
    var testFileList := SelectScripts(listing.value);
    var testResults := RunScripts(testFolder, testFileList, run);
    var failedTestResults := FailedResults(testResults);
    return Success(Summary(testFileList, testResults, failedTestResults,
                           |testResults| - |failedTestResults|, |failedTestResults|));
  }

  /** The loop of cmd/run.go:76-81. */
  method SelectScripts(fileList: seq<string>) returns (testFileList: seq<string>)
    ensures testFileList == ShellScripts(fileList)
  {
    testFileList := [];
    for k := 0 to |fileList|
      invariant testFileList == ShellScripts(fileList[..k])
    {
      assert fileList[..k + 1][..k] == fileList[..k];
      if HasSuffix(fileList[k], ".sh") {
        testFileList := testFileList + [fileList[k]];
      }
    }
    assert fileList[..|fileList|] == fileList;
  }

  /** The loop of cmd/run.go:87-101. */
  method RunScripts(testFolder: string, testFileList: seq<string>, run: string -> Completion)
    returns (testResults: seq<TestResult>)
    ensures testResults == CmdResults(testFileList, testFolder, run)
  {
    testResults := [];
    for i := 0 to |testFileList|
      invariant testResults == CmdResults(testFileList[..i], testFolder, run)
    {
      var result := RunSingleTest(testFileList[i], run(JoinPath(testFolder, testFileList[i])));
      assert CmdResults(testFileList[..i + 1], testFolder, run) == testResults + [result];
      testResults := testResults + [result];
    }
    assert testFileList[..|testFileList|] == testFileList;
  }

  /** The loop of cmd/run.go:104-109. */
  method FailedResults(testResults: seq<TestResult>) returns (failedTestResults: seq<TestResult>)
    ensures failedTestResults == Failed(testResults)
  {
    failedTestResults := [];
    for i := 0 to |testResults|
      invariant failedTestResults == Failed(testResults[..i])
    {
      assert testResults[..i + 1][..i] == testResults[..i];
      if !testResults[i].success {
        failedTestResults := failedTestResults + [testResults[i]];
      }
    }
    assert testResults[..|testResults|] == testResults;
  }

  /** The summary's counts (cmd/run.go:117-118, 128): one result per kept script, the failed
      count is the number of results that did not succeed, and the passed count — the total
      minus the failed count — is the number that did. */
  lemma SummaryCounts(names: seq<string>, testFolder: string, run: string -> Completion)
    ensures var files := ShellScripts(names);
      var rs := CmdResults(files, testFolder, run);
      && |rs| == |files|
      && (forall i :: 0 <= i < |files| ==> rs[i].testFile == files[i])
      && |rs| - |Failed(rs)| == |Passed(rs)| >= 0
      && Seqs.SubsequenceOf(Failed(rs), rs)
  {
    var files := ShellScripts(names);
    var rs := CmdResults(files, testFolder, run);
    forall i | 0 <= i < |files| ensures rs[i].testFile == files[i] {
      CmdResultCases(files[i], run(JoinPath(testFolder, files[i])));
    }
    FailedPassedCount(rs);
    FailedInOrder(rs);
  }
}
