/** How lib/runner.go turns what happened to one test process into a TestResult: getErrorCode
    (lib/runner.go:272-298) and the outcomes of runSingleTest (lib/runner.go:221-270). The
    process itself, the context timeout and the race between the timer and Wait are not
    modelled; what they produce is given as a ProcessOutcome. */
module Execution {
  import opened Wrappers
  import opened TestResults

  /** What command.Wait returned: nil, an *exec.ExitError (whose Sys() value is a
      syscall.WaitStatus carrying an exit status, or is not one), or some other error. */
  datatype WaitError =
    | NoError
    | ExitError(status: Option<int>, message: string)
    | OtherError(message: string)

  /** What happened to one test process: Start failed; the timer fired first (with the output
      captured up to then); or Wait returned first, with ProcessState.Success() and Wait's
      error. */
  datatype ProcessOutcome =
    | StartFailed(message: string)
    | TimedOut(partialOutput: string)
    | Finished(success: bool, waitError: WaitError, output: string)

  /** The text written after the output of a test that ran out of time; the duration is
      written as Go's %v prints it, which is given as text. */
  function TimeoutMarker(timeoutText: string): string
  {
    "Killed by testbrain: Timed out after " + timeoutText
  }

  /** getErrorCode (lib/runner.go:272-298): the exit code to record, and the error to bubble up
      when the failure did not come from the script. */
  function GetErrorCode(success: bool, w: WaitError): (r: (int, Option<string>))
    ensures success ==> r == (0, None)
    ensures !success ==> r.0 == (if w.ExitError? && w.status.Some? then w.status.value else UnknownExitCode)
    ensures r.1.Some? <==> !success && (w.OtherError? || (w.ExitError? && w.status.None?))
    ensures r.1.Some? ==> r.1.value == w.message
  {
    if success then (0, None)
    else match w
      case NoError => (UnknownExitCode, None)
      case ExitError(status, message) =>
        if status.Some? then (status.value, None) else (UnknownExitCode, Some(message))
      case OtherError(message) => (UnknownExitCode, Some(message))
  }

  /** runSingleTest (lib/runner.go:221-270) once the process outcome is known. */
  function RunSingleTest(testFile: string, timeoutText: string, outcome: ProcessOutcome): TestResult
  {
    match outcome
      case StartFailed(message) => ErrorTestResult(testFile, message)
      case TimedOut(partial) => TestResult(testFile, false, -1, partial + TimeoutMarker(timeoutText))
      case Finished(success, w, output) =>
        var (code, err) := GetErrorCode(success, w);
        if err.Some? then ErrorTestResult(testFile, err.value)
        else TestResult(testFile, success, code, output)
  }

  /** The result always names the test file it ran, and it has succeeded exactly when Wait
      returned first and the process state reports success; a successful result has exit code
      0. */
  lemma RunSingleTestSuccess(testFile: string, timeoutText: string, outcome: ProcessOutcome)
    ensures var r := RunSingleTest(testFile, timeoutText, outcome);
      && r.testFile == testFile
      && (r.success <==> outcome.Finished? && outcome.success)
      && (r.success ==> r.exitCode == 0 && r.output == outcome.output)
  {
  }

  /** A failed start gives ErrorTestResult with Start's message. */
  lemma RunSingleTestStartFailed(testFile: string, timeoutText: string, message: string)
    ensures RunSingleTest(testFile, timeoutText, StartFailed(message)) == ErrorTestResult(testFile, message)
  {
  }

  /** A timeout gives a failure with exit code -1 whose output is what the script wrote so far
      followed by the timeout marker. */
  lemma RunSingleTestTimedOut(testFile: string, timeoutText: string, partial: string)
    ensures var r := RunSingleTest(testFile, timeoutText, TimedOut(partial));
      && !r.success && r.exitCode == -1
      && r.output == partial + TimeoutMarker(timeoutText)
      && |r.output| >= |TimeoutMarker(timeoutText)|
      && r.output[|r.output| - |TimeoutMarker(timeoutText)|..] == TimeoutMarker(timeoutText)
  {
    var r := RunSingleTest(testFile, timeoutText, TimedOut(partial));
    assert r.output[|partial|..] == TimeoutMarker(timeoutText);
  }

  /** When Wait returned first, the result is ErrorTestResult with the wait error's message
      exactly when the script did not succeed and the error is not an exit error carrying a
      wait status; otherwise it keeps the process state's success, the captured output, and
      the exit code getErrorCode chose: 0 on success, the wait status's exit status for an exit
      error, and -1 when Wait reported no error. */
  lemma RunSingleTestFinished(testFile: string, timeoutText: string, success: bool, w: WaitError, output: string)
    ensures var r := RunSingleTest(testFile, timeoutText, Finished(success, w, output));
      if !success && (w.OtherError? || (w.ExitError? && w.status.None?)) then
        r == ErrorTestResult(testFile, w.message)
      else
        && r.success == success && r.output == output
        && r.exitCode == (if success then 0 else if w.ExitError? then w.status.value else -1)
  {
  }
}
