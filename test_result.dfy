/** lib/test_result.go: the record of one test script's run, and the partition of a list of
    them into failed and passed entries that both runners compute. */
module TestResults {
  import opened Seqs

  /** TestResult (lib/test_result.go:4-9). */
  datatype TestResult = TestResult(testFile: string, success: bool, exitCode: int, output: string)

  /** UnknownExitCode (lib/test_result.go:12). */
  const UnknownExitCode: int := -1

  /** ErrorTestResult (lib/test_result.go:15-22): the result of a script that could not be run
      or waited for; err is the error's message. */
  function ErrorTestResult(testFile: string, err: string): (r: TestResult)
    ensures r.testFile == testFile && r.output == err
    ensures !r.success && r.exitCode == UnknownExitCode == -1
  {
    TestResult(testFile, false, UnknownExitCode, err)
  }

  /** The results built by ErrorTestResult are exactly the failed ones with the unknown exit
      code, and the file name and the message can be read back from them. */
  lemma ErrorTestResultExactly(r: TestResult)
    ensures r == ErrorTestResult(r.testFile, r.output) <==> !r.success && r.exitCode == UnknownExitCode
  {
  }

  /** The entries with success false, in their original order. */
  function Failed(rs: seq<TestResult>): (f: seq<TestResult>)
    ensures |f| <= |rs|
    ensures forall i :: 0 <= i < |f| ==> !f[i].success
  {
    if rs == [] then []
    else Failed(rs[..|rs| - 1]) + (if !rs[|rs| - 1].success then [rs[|rs| - 1]] else [])
  }

  /** The entries with success true, in their original order. */
  function Passed(rs: seq<TestResult>): (p: seq<TestResult>)
    ensures |p| <= |rs|
    ensures forall i :: 0 <= i < |p| ==> p[i].success
  {
    if rs == [] then []
    else Passed(rs[..|rs| - 1]) + (if rs[|rs| - 1].success then [rs[|rs| - 1]] else [])
  }

  lemma {:induction false} FailedAppend(a: seq<TestResult>, b: seq<TestResult>)
    ensures Failed(a + b) == Failed(a) + Failed(b)
    ensures Passed(a + b) == Passed(a) + Passed(b)
    decreases |b|
  {
    if b == [] {
      assert a + b == a;
    } else {
      assert (a + b)[..|a + b| - 1] == a + b[..|b| - 1];
      FailedAppend(a, b[..|b| - 1]);
    }
  }

  /** An entry is among the failed ones exactly when it is in the list and did not succeed, and
      among the passed ones exactly when it is in the list and succeeded. */
  lemma {:induction false} FailedMembers(rs: seq<TestResult>, x: TestResult)
    ensures x in Failed(rs) <==> x in rs && !x.success
    ensures x in Passed(rs) <==> x in rs && x.success
    decreases |rs|
  {
    if rs != [] {
      var init := rs[..|rs| - 1];
      FailedMembers(init, x);
      assert rs == init + [rs[|rs| - 1]];
    }
  }

  /** The failed entries keep the order they had in the list, and so do the passed ones. */
  lemma {:induction false} FailedInOrder(rs: seq<TestResult>)
    ensures SubsequenceOf(Failed(rs), rs)
    ensures SubsequenceOf(Passed(rs), rs)
    decreases |rs|
  {
    if rs != [] {
      var init, last := rs[..|rs| - 1], rs[|rs| - 1];
      FailedInOrder(init);
      SubsequenceSnoc(Failed(init), init, last, !last.success);
      SubsequenceSnoc(Passed(init), init, last, last.success);
    }
  }

  /** Every entry is either failed or passed: the two counts add up to the total, so the
      passed count both summaries print is the total minus the failed count. */
  lemma {:induction false} FailedPassedCount(rs: seq<TestResult>)
    ensures |Failed(rs)| + |Passed(rs)| == |rs|
    decreases |rs|
  {
    if rs != [] {
      FailedPassedCount(rs[..|rs| - 1]);
    }
  }

  /** Nothing failed exactly when every entry succeeded. */
  lemma NoneFailed(rs: seq<TestResult>)
    ensures Failed(rs) == [] <==> forall i :: 0 <= i < |rs| ==> rs[i].success
  {
    if Failed(rs) == [] {
      forall i | 0 <= i < |rs| ensures rs[i].success {
        FailedMembers(rs, rs[i]);
      }
    } else {
      FailedMembers(rs, Failed(rs)[0]);
    }
  }
}
