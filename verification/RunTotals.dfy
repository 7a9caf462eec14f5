/** Counting assertions and test cases over a run, and the exit code that is made of the counts. */
module RunTotals {

  datatype Counts = Counts(passed: nat, failed: nat, failedButOk: nat, skipped: nat) {
    function Plus(other: Counts): Counts {
      Counts(passed + other.passed, failed + other.failed, failedButOk + other.failedButOk, skipped + other.skipped)
    }

    predicate AtLeast(other: Counts) {
      passed >= other.passed && failed >= other.failed && failedButOk >= other.failedButOk && skipped >= other.skipped
    }

    /** The counters are unsigned, so the difference is only asked for where it is not negative. */
    function Minus(other: Counts): Counts
      requires AtLeast(other)
    {
      Counts(passed - other.passed, failed - other.failed, failedButOk - other.failedButOk, skipped - other.skipped)
    }

    function Total(): nat {
      passed + failed + failedButOk + skipped
    }
  }

  const NONE := Counts(0, 0, 0, 0)

  datatype Totals = Totals(assertions: Counts, testCases: Counts) {
    function Plus(other: Totals): Totals {
      Totals(assertions.Plus(other.assertions), testCases.Plus(other.testCases))
    }

    /** What happened since `prev`, as one test case more. */
    function Delta(prev: Totals): Totals
      requires assertions.AtLeast(prev.assertions) && testCases.AtLeast(prev.testCases)
    {
      var diff := Totals(assertions.Minus(prev.assertions), testCases.Minus(prev.testCases));
      if diff.assertions.failed > 0 then diff.(testCases := diff.testCases.(failed := diff.testCases.failed + 1))
      else if diff.assertions.failedButOk > 0 then
          diff.(testCases := diff.testCases.(failedButOk := diff.testCases.failedButOk + 1))
      else if diff.assertions.skipped > 0 then diff.(testCases :=
          diff.testCases.(skipped := diff.testCases.skipped + 1))
      else diff.(testCases := diff.testCases.(passed := diff.testCases.passed + 1))
    }
  }

  const NO_TOTALS := Totals(NONE, NONE)

  /** A test case: whether it is expected to fail, and the assertions of each cycle it would take. */
  datatype TestCase = TestCase(expectedToFail: bool, cycles: seq<Counts>)

  /** The totals of one test case or more: a test case failed exactly when an assertion did, and every test
      case that ran is counted once. */
  predicate Sound(t: Totals, ran: nat) {
    && (t.testCases.failed > 0 <==> t.assertions.failed > 0)
    && t.testCases.Total() == ran
  }

  class RunContext {
    var totals: Totals
    const abortAfter: nat

    constructor (abortAfter: nat)
      ensures totals == NO_TOTALS && this.abortAfter == abortAfter
    {
      totals := NO_TOTALS;
      this.abortAfter := abortAfter;
    }

    predicate Aborting()
      reads this
    {
      totals.assertions.failed >= abortAfter
    }

    /** Runs one test case cycle after cycle, until it is done or the run is aborted; the totals returned are
        those of this test case alone. */
    method RunTest(test: TestCase) returns (delta: Totals, ghost run: nat)
      requires test.cycles != []
      modifies this
      ensures 0 < run <= |test.cycles|
      ensures delta == TestTotals(test, Sum(test.cycles[..run]))
      ensures totals.testCases == old(totals.testCases).Plus(delta.testCases)
      ensures totals.assertions == old(totals.assertions).Plus(Sum(test.cycles[..run]))
      ensures run < |test.cycles| ==> Aborting()
      ensures forall k :: 0 < k < run ==> old(totals.assertions.failed) + Sum(test.cycles[..k]).failed < abortAfter
    {
      hide Counts.Plus, Sum, Sound, Totals.Delta, Counts.Total;
      var prevTotals := totals;
      run := 0;
      var i := 0;
      var more := true;
      SumNone(test.cycles, prevTotals.assertions);
      while more
        invariant 0 <= i <= |test.cycles| && i == run && (more ==> i < |test.cycles|) && (!more ==> i > 0)
        invariant totals.testCases == prevTotals.testCases
        invariant totals.assertions == prevTotals.assertions.Plus(Sum(test.cycles[..i]))
        invariant !more ==> i == |test.cycles| || Aborting()
        invariant forall k :: 0 < k < (if more then i + 1 else i) ==>
            prevTotals.assertions.failed + Sum(test.cycles[..k]).failed < abortAfter
        decreases |test.cycles| - i, more
      {
        SumMore(test.cycles, i, prevTotals.assertions);
        totals := totals.(assertions := totals.assertions.Plus(test.cycles[i]));
        i := i + 1;
        run := i;
        more := i < |test.cycles| && !Aborting();
      }
      DeltaOfTest(prevTotals, Sum(test.cycles[..run]), test);
      delta := totals.Delta(prevTotals);
      if test.expectedToFail && delta.testCases.passed > 0 {
        delta := delta.(assertions := delta.assertions.(failed := delta.assertions.failed + 1));
        delta := delta.(testCases := delta.testCases.(passed := delta.testCases.passed - 1,
            failed := delta.testCases.failed + 1));
      }
      totals := totals.(testCases := totals.testCases.Plus(delta.testCases));
    }
  }

  function Sum(cs: seq<Counts>): Counts {
    if cs == [] then NONE else Sum(cs[..|cs| - 1]).Plus(cs[|cs| - 1])
  }

  lemma SumNone(cs: seq<Counts>, before: Counts)
    ensures before.Plus(Sum(cs[..0])) == before
  {
  }

  lemma SumMore(cs: seq<Counts>, n: nat, before: Counts)
    requires n < |cs|
    ensures before.Plus(Sum(cs[..n + 1])) == before.Plus(Sum(cs[..n])).Plus(cs[n])
    ensures before.Plus(Sum(cs[..n + 1])).failed == before.failed + Sum(cs[..n + 1]).failed
  {
    assert cs[..n + 1][..n] == cs[..n];
  }

  /** Whether a test case that was expected to fail passed. */
  predicate Unexpected(test: TestCase, a: Counts) {
    test.expectedToFail && a.failed == 0 && a.failedButOk == 0 && a.skipped == 0
  }

  /** The totals of a test case with the assertions `a`: it failed if one of them did or if it was expected to
      fail and passed, which counts as a failed assertion; otherwise it is failed but ok, skipped or passed. */
  function TestTotals(test: TestCase, a: Counts): (t: Totals)
    ensures Sound(t, 1)
  {
    if Unexpected(test, a) then Totals(a.(failed := 1), Counts(0, 1, 0, 0))
    else
      Totals(a,
        if a.failed > 0 then Counts(0, 1, 0, 0)
        else if a.failedButOk > 0 then Counts(0, 0, 1, 0)
        else if a.skipped > 0 then Counts(0, 0, 0, 1)
        else Counts(1, 0, 0, 0))
  }

  /** All four counters are added up. */
  lemma {:induction false} SumCounts(cs: seq<Counts>, n: nat)
    requires n < |cs|
    ensures Sum(cs[..0]) == Counts(0, 0, 0, 0)
    ensures var before, c := Sum(cs[..n]), cs[n];
      Sum(cs[..n + 1])
      == Counts(before.passed + c.passed, before.failed + c.failed, before.failedButOk + c.failedButOk,
                before.skipped + c.skipped)
  {
    assert cs[..n + 1][..n] == cs[..n];
  }

  lemma {:induction false} SumSome(cs: seq<Counts>, n: nat)
    requires n <= |cs|
    ensures Sum(cs[..n]).failed > 0 <==> exists k :: 0 <= k < n && cs[k].failed > 0
    ensures Sum(cs[..n]).failedButOk > 0 <==> exists k :: 0 <= k < n && cs[k].failedButOk > 0
    ensures Sum(cs[..n]).skipped > 0 <==> exists k :: 0 <= k < n && cs[k].skipped > 0
    decreases n
  {
    hide Sum;
    if n > 0 {
      SumSome(cs, n - 1);
      SumCounts(cs, n - 1);
    } else {
      SumEmpty(cs);
    }
  }

  lemma SumEmpty(cs: seq<Counts>)
    ensures Sum(cs[..0]) == Counts(0, 0, 0, 0)
  {
  }

  /** How a test case counts that ran for `n` cycles: as failed if an assertion failed in one of them, else as
      failed but ok or as skipped if one did that, and else as passed, unless it was expected to fail. */
  lemma TestCaseCounts(test: TestCase, n: nat)
    requires n <= |test.cycles|
    ensures var t := TestTotals(test, Sum(test.cycles[..n])).testCases;
      if exists k :: 0 <= k < n && test.cycles[k].failed > 0 then t == Counts(0, 1, 0, 0)
      else if exists k :: 0 <= k < n && test.cycles[k].failedButOk > 0 then t == Counts(0, 0, 1, 0)
      else if exists k :: 0 <= k < n && test.cycles[k].skipped > 0 then t == Counts(0, 0, 0, 1)
      else t == if test.expectedToFail then Counts(0, 1, 0, 0) else Counts(1, 0, 0, 0)
  {
    hide Sum;
    SumSome(test.cycles, n);
  }

  lemma DeltaOfTest(prev: Totals, a: Counts, test: TestCase)
    ensures var now := Totals(prev.assertions.Plus(a), prev.testCases);
      && now.assertions.AtLeast(prev.assertions) && now.testCases.AtLeast(prev.testCases)
      && now.Delta(prev).assertions == a
      && now.Delta(prev).testCases == TestTotals(test.(expectedToFail := false), a).testCases
  {
  }

  /** The assertions of the first `n` tests, of which test `i` ran for `runs[i]` cycles. */
  function Assertions(tests: seq<TestCase>, runs: seq<nat>, n: nat): Counts
    requires n <= |runs| <= |tests| && forall i :: 0 <= i < |runs| ==> runs[i] <= |tests[i].cycles|
  {
    if n == 0 then NONE else Assertions(tests, runs, n - 1).Plus(Sum(tests[n - 1].cycles[..runs[n - 1]]))
  }

  /** The totals of the first `n` tests, added up. */
  function Added(tests: seq<TestCase>, runs: seq<nat>, n: nat): Totals
    requires n <= |runs| <= |tests| && forall i :: 0 <= i < |runs| ==> runs[i] <= |tests[i].cycles|
  {
    if n == 0 then NO_TOTALS
    else Added(tests, runs, n - 1).Plus(TestTotals(tests[n - 1], Sum(tests[n - 1].cycles[..runs[n - 1]])))
  }

  /** Test `i` ran for `runs[i]` cycles: it started before the run was aborted, and it stopped after the cycle in
      which it was aborted or after its last one. */
  ghost predicate Ran(tests: seq<TestCase>, runs: seq<nat>, i: nat, abortAfter: nat)
    requires i < |runs| <= |tests| && forall j :: 0 <= j < |runs| ==> runs[j] <= |tests[j].cycles|
  {
    && Assertions(tests, runs, i).failed < abortAfter
    && 0 < runs[i]
    && (forall k :: 0 < k < runs[i] ==>
                    Assertions(tests, runs, i).failed + Sum(tests[i].cycles[..k]).failed < abortAfter)
    && (runs[i] < |tests[i].cycles| ==> Assertions(tests, runs, i + 1).failed >= abortAfter)
  }

  /** The first `|runs|` tests ran, and if they are not all, then because the run was aborted. */
  ghost predicate IsRun(tests: seq<TestCase>, runs: seq<nat>, abortAfter: nat) {
    && |runs| <= |tests|
    && (forall i :: 0 <= i < |runs| ==> runs[i] <= |tests[i].cycles|)
    && (forall i :: 0 <= i < |runs| ==> Ran(tests, runs, i, abortAfter))
    && (|runs| < |tests| ==> Assertions(tests, runs, |runs|).failed >= abortAfter)
  }

  /** Runs the tests until the run is aborted; then the others are skipped. The result is the sum of the totals
      of the tests that ran. The run context counts the same test cases, but only the assertions that were made. */
  method Execute(tests: seq<TestCase>, context: RunContext) returns (totals: Totals, skipped: nat, ghost runs: seq<nat>)
    requires context.totals == NO_TOTALS && forall i :: 0 <= i < |tests| ==> tests[i].cycles != []
    modifies context
    ensures IsRun(tests, runs, context.abortAfter) && skipped == |tests| - |runs|
    ensures totals == Added(tests, runs, |runs|)
    ensures context.totals == Totals(Assertions(tests, runs, |runs|), Added(tests, runs, |runs|).testCases)
  {
    hide Counts.Plus, Sum, Ran;
    totals, skipped, runs := NO_TOTALS, 0, [];
    var i := 0;
    while i < |tests|
      invariant i <= |tests| && |runs| <= i && skipped == i - |runs|
      invariant forall j :: 0 <= j < |runs| ==> runs[j] <= |tests[j].cycles|
      invariant forall j :: 0 <= j < |runs| ==> Ran(tests, runs, j, context.abortAfter)
      invariant totals == Added(tests, runs, |runs|)
      invariant context.totals == Totals(Assertions(tests, runs, |runs|), Added(tests, runs, |runs|).testCases)
      invariant skipped > 0 ==> context.Aborting()
    {
      if !context.Aborting() {
        var delta;
        ghost var run;
        delta, run := context.RunTest(tests[i]);
        OneMoreRan(tests, runs, run, context.abortAfter);
        runs := runs + [run];
        totals := totals.Plus(delta);
      } else {
        skipped := skipped + 1;
      }
      i := i + 1;
    }
  }

  lemma {:induction false} SameRuns(tests: seq<TestCase>, runs: seq<nat>, more: seq<nat>, n: nat)
    requires n <= |runs| <= |more| <= |tests| && runs <= more
    requires forall i :: 0 <= i < |more| ==> more[i] <= |tests[i].cycles|
    ensures Assertions(tests, more, n) == Assertions(tests, runs, n) && Added(tests, more, n) == Added(tests, runs, n)
    decreases n
  {
    hide Counts.Plus, Totals.Plus, Sum, TestTotals;
    if n > 0 {
      SameRuns(tests, runs, more, n - 1);
    }
  }

  lemma OneMoreRan(tests: seq<TestCase>, runs: seq<nat>, run: nat, abortAfter: nat)
    requires |runs| < |tests| && (forall j :: 0 <= j < |runs| ==> runs[j] <= |tests[j].cycles|)
        && 0 < run <= |tests[|runs|].cycles|
    requires forall j :: 0 <= j < |runs| ==> Ran(tests, runs, j, abortAfter)
    requires var before := Assertions(tests, runs, |runs|);
      var cycles := tests[|runs|].cycles;
      && before.failed < abortAfter
      && (forall k :: 0 < k < run ==> before.failed + Sum(cycles[..k]).failed < abortAfter)
      && (run < |cycles| ==> before.Plus(Sum(cycles[..run])).failed >= abortAfter)
    ensures var more := runs + [run];
      && (forall j :: 0 <= j < |more| ==> more[j] <= |tests[j].cycles|)
      && (forall j :: 0 <= j < |more| ==> Ran(tests, more, j, abortAfter))
      && Added(tests, more, |more|) == Added(tests, runs,
          |runs|).Plus(TestTotals(tests[|runs|], Sum(tests[|runs|].cycles[..run])))
      && Assertions(tests, more, |more|) == Assertions(tests, runs, |runs|).Plus(Sum(tests[|runs|].cycles[..run]))
  {
    hide Counts.Plus, Totals.Plus, Sum, TestTotals;
    var more := runs + [run];
    SameRuns(tests, runs, more, |runs|);
    forall j | 0 <= j < |runs| ensures Ran(tests, more, j, abortAfter) {
      assert Ran(tests, runs, j, abortAfter);
      SameRuns(tests, runs, more, j);
      SameRuns(tests, runs, more, j + 1);
    }
  }

  /** An assertion of the test fails in some cycle. */
  ghost predicate Fails(test: TestCase) {
    exists k :: 0 <= k < |test.cycles| && test.cycles[k].failed > 0
  }

  ghost predicate SomeFails(tests: seq<TestCase>) {
    exists i :: 0 <= i < |tests| && Fails(tests[i])
  }

  /** A test that is expected to fail passes. */
  ghost predicate SomePassesUnexpectedly(tests: seq<TestCase>) {
    exists i :: 0 <= i < |tests| && Unexpected(tests[i], Sum(tests[i].cycles))
  }

  /** The test does nothing worse than to skip, and does that. */
  predicate Skips(a: Counts) {
    a.failed == 0 && a.failedButOk == 0 && a.skipped > 0
  }

  lemma {:induction false} AssertionsFail(tests: seq<TestCase>, runs: seq<nat>, m: nat, n: nat)
    requires m <= n <= |runs| <= |tests| && forall i :: 0 <= i < |runs| ==> runs[i] <= |tests[i].cycles|
    ensures Assertions(tests, runs, m).failed <= Assertions(tests, runs, n).failed
    ensures Assertions(tests, runs, n).failed > 0
        <==> exists i :: 0 <= i < n && Sum(tests[i].cycles[..runs[i]]).failed > 0
    decreases n
  {
    hide Sum;
    if n > 0 {
      AssertionsFail(tests, runs, if m < n then m else n - 1, n - 1);
    }
  }

  /** Unless nothing may run, an assertion fails in the run exactly when one fails in some test; and if none
      does, all tests run to their end. */
  lemma RunFails(tests: seq<TestCase>, runs: seq<nat>, abortAfter: nat)
    requires IsRun(tests, runs, abortAfter) && abortAfter > 0
    ensures Assertions(tests, runs, |runs|).failed > 0 <==> SomeFails(tests)
    ensures !SomeFails(tests) ==> |runs| == |tests| && forall i :: 0 <= i < |tests| ==> runs[i] == |tests[i].cycles|
  {
    hide Sum;
    forall i | 0 <= i < |runs| ensures Sum(tests[i].cycles[..runs[i]]).failed > 0 ==> Fails(tests[i]) {
      SumSome(tests[i].cycles, runs[i]);
    }
    AssertionsFail(tests, runs, 0, |runs|);
    forall i | 0 <= i < |runs|
      ensures runs[i] < |tests[i].cycles| ==> Assertions(tests, runs, |runs|).failed > 0
      ensures runs[i] == |tests[i].cycles| && Fails(tests[i]) ==> Assertions(tests, runs, |runs|).failed > 0
    {
      assert Ran(tests, runs, i, abortAfter);
      AssertionsFail(tests, runs, i + 1, |runs|);
      SumSome(tests[i].cycles, runs[i]);
    }
  }

  /** What the sum of the totals says about the tests that ran. */
  lemma {:induction false} AddedMeaning(tests: seq<TestCase>, runs: seq<nat>, n: nat)
    requires n <= |runs| <= |tests| && forall i :: 0 <= i < |runs| ==> runs[i] <= |tests[i].cycles|
    ensures var t := Added(tests, runs, n);
      && Sound(t, n)
      && (t.testCases.failed > 0 <==>
            Assertions(tests, runs, n).failed > 0 || exists i ::
                0 <= i < n && Unexpected(tests[i], Sum(tests[i].cycles[..runs[i]])))
      && (t.testCases.skipped == n <==> forall i :: 0 <= i < n ==> Skips(Sum(tests[i].cycles[..runs[i]])))
    decreases n
  {
    hide Sum, Skips, Unexpected, TestTotals, Counts.Plus, Totals.Plus, Sound;
    if n > 0 {
      AddedMeaning(tests, runs, n - 1);
      var a := Sum(tests[n - 1].cycles[..runs[n - 1]]);
      AddOne(Added(tests, runs, n - 1), Assertions(tests, runs, n - 1), n - 1, tests[n - 1], a);
    } else {
      NothingAdded(NONE);
    }
  }

  lemma NothingAdded(none: Counts)
    requires none.passed == 0 && none.failed == 0 && none.failedButOk == 0 && none.skipped == 0
    ensures Sound(Totals(none, none), 0)
  {
  }

  lemma AddOne(t: Totals, made: Counts, n: nat, test: TestCase, a: Counts)
    requires Sound(t, n)
    ensures var more := t.Plus(TestTotals(test, a));
      && Sound(more, n + 1)
      && (more.testCases.failed > 0 <==> t.testCases.failed > 0 || a.failed > 0 || Unexpected(test, a))
      && (made.Plus(a).failed > 0 <==> made.failed > 0 || a.failed > 0)
      && (more.testCases.skipped == n + 1 <==> t.testCases.skipped == n && Skips(a))
  {
  }

  /** Of any list of tests: a test case of the run fails if and only if the run may start and an assertion of
      some test fails or some test passes unexpectedly. */
  lemma RunFailsIff(tests: seq<TestCase>, runs: seq<nat>, abortAfter: nat)
    requires IsRun(tests, runs, abortAfter)
    ensures Sound(Added(tests, runs, |runs|), |runs|)
    ensures Added(tests, runs, |runs|).testCases.failed > 0
        <==> abortAfter > 0 && (SomeFails(tests) || SomePassesUnexpectedly(tests))
    ensures Assertions(tests, runs, |runs|).failed > 0 <==> abortAfter > 0 && SomeFails(tests)
  {
    hide Sum, Added, Assertions, Unexpected, Sound;
    AddedMeaning(tests, runs, |runs|);
    if abortAfter == 0 {
      NeverStarts(tests, runs);
    } else {
      RunFails(tests, runs, abortAfter);
      forall i | 0 <= i < |runs| && runs[i] == |tests[i].cycles|
          ensures tests[i].cycles[..runs[i]] == tests[i].cycles {}
    }
  }

  lemma NeverStarts(tests: seq<TestCase>, runs: seq<nat>)
    requires IsRun(tests, runs, 0)
    ensures runs == [] && Assertions(tests, runs, |runs|).failed == 0
  {
    assert |runs| > 0 ==> Ran(tests, runs, 0, 0);
  }

  /** No test runs if and only if there is none or none may start; and all that run are skipped if and only if
      all tests skip. */
  lemma RunSkipsIff(tests: seq<TestCase>, runs: seq<nat>, abortAfter: nat)
    requires IsRun(tests, runs, abortAfter)
    ensures |runs| == 0 <==> tests == [] || abortAfter == 0
    ensures |runs| > 0 ==>
              (Added(tests, runs, |runs|).testCases.skipped == |runs| <==> forall i ::
                  0 <= i < |tests| ==> Skips(Sum(tests[i].cycles)))
  {
    hide Sum, Added, Skips, Sound, Unexpected;
    AddedMeaning(tests, runs, |runs|);
    if abortAfter == 0 {
      NeverStarts(tests, runs);
    } else {
      RunFails(tests, runs, abortAfter);
      SkipsAllOrFails(tests, runs);
      forall i | 0 <= i < |tests| ensures Skips(Sum(tests[i].cycles)) ==> !Fails(tests[i]) {
        SkipsDoesNotFail(tests[i]);
      }
      forall i | 0 <= i < |runs| && runs[i] == |tests[i].cycles|
          ensures tests[i].cycles[..runs[i]] == tests[i].cycles {}
    }
  }

  lemma SkipsDoesNotFail(test: TestCase)
    ensures Skips(Sum(test.cycles)) ==> !Fails(test)
  {
    SumSome(test.cycles, |test.cycles|);
    assert test.cycles[..|test.cycles|] == test.cycles;
  }

  lemma SkipsAllOrFails(tests: seq<TestCase>, runs: seq<nat>)
    requires |runs| <= |tests| && forall i :: 0 <= i < |runs| ==> runs[i] <= |tests[i].cycles|
    ensures (forall i :: 0 <= i < |runs| ==> Skips(Sum(tests[i].cycles[..runs[i]]))) ==>
        Assertions(tests, runs, |runs|).failed == 0
    ensures Assertions(tests, runs, 0).failed == 0
  {
    hide Sum;
    AssertionsFail(tests, runs, 0, |runs|);
  }

  /** A failed test case without a failed assertion. */
  predicate Agrees(t: Totals) {
    t.testCases.failed > 0 <==> t.assertions.failed > 0
  }

  /** The run context's own totals have a failed test case exactly when they have a failed assertion, if and
      only if no test may start, or an assertion fails in some test, or no test passes unexpectedly. */
  lemma ContextAgreesIff(tests: seq<TestCase>, runs: seq<nat>, abortAfter: nat)
    requires IsRun(tests, runs, abortAfter)
    ensures Agrees(Totals(Assertions(tests, runs, |runs|), Added(tests, runs, |runs|).testCases))
            <==> abortAfter == 0 || SomeFails(tests) || !SomePassesUnexpectedly(tests)
  {
    hide Assertions, Added, SomeFails, SomePassesUnexpectedly, IsRun;
    RunFailsIff(tests, runs, abortAfter);
  }

  /** A test that is expected to fail and passes its one assertion. */
  function UnexpectedPass(): TestCase {
    TestCase(true, [Counts(1, 0, 0, 0)])
  }

  /** With that test alone, the run context counts a failed test case and no failed assertion. */
  lemma UnexpectedPassExample(runs: seq<nat>, abortAfter: nat)
    requires abortAfter > 0 && IsRun([UnexpectedPass()], runs, abortAfter)
    ensures Assertions([UnexpectedPass()], runs, |runs|).failed
        == 0 < Added([UnexpectedPass()], runs, |runs|).testCases.failed
  {
    hide IsRun, Assertions, Added, UnexpectedPass;
    OnlyUnexpected();
    RunFailsIff([UnexpectedPass()], runs, abortAfter);
  }

  lemma OnlyUnexpected()
    ensures !SomeFails([UnexpectedPass()]) && SomePassesUnexpectedly([UnexpectedPass()])
  {
    hide Sum, Counts.Plus;
    var tests := [UnexpectedPass()];
    SumOne(Counts(1, 0, 0, 0));
    assert !Fails(tests[0]);
    assert Unexpected(tests[0], Sum(tests[0].cycles));
  }

  lemma SumOne(c: Counts)
    ensures Sum([c]) == c
  {
    hide Counts.Plus;
    assert [c][..0] == [];
    PlusNothing(NONE, c);
  }

  lemma PlusNothing(none: Counts, c: Counts)
    requires none.passed == 0 && none.failed == 0 && none.failedButOk == 0 && none.skipped == 0
    ensures none.Plus(c) == c
  {
  }

  /** A test spec given on the command line, with the number of tests it matches. */
  datatype Match = Match(name: string, tests: nat)

  const TEST_FAILURE := 42
  const ALL_TESTS_SKIPPED := 4
  const UNMATCHED_TEST_SPEC := 3
  const NO_TESTS_RUN := 2
  const INVALID_TEST_SPEC := 5

  function ExitCode(totals: Totals, unmatched: bool, zeroTestsCountAsSuccess: bool): int {
    var ran := totals.testCases.Total();
    if unmatched then UNMATCHED_TEST_SPEC
    else if ran == 0 && !zeroTestsCountAsSuccess then NO_TESTS_RUN
    else if ran > 0 && ran == totals.testCases.skipped && !zeroTestsCountAsSuccess then ALL_TESTS_SKIPPED
    else if totals.assertions.failed > 0 then TEST_FAILURE
    else 0
  }

  /** The session fails, has no test to run, or has them all skipped: told from the tests alone. */
  ghost predicate SessionFails(tests: seq<TestCase>, abortAfter: nat) {
    abortAfter > 0 && (SomeFails(tests) || SomePassesUnexpectedly(tests))
  }

  ghost predicate SessionRunsNothing(tests: seq<TestCase>, abortAfter: nat) {
    tests == [] || abortAfter == 0
  }

  ghost predicate SessionSkipsAll(tests: seq<TestCase>, abortAfter: nat) {
    !SessionRunsNothing(tests, abortAfter) && forall i :: 0 <= i < |tests| ==> Skips(Sum(tests[i].cycles))
  }

  /** Apart from unmatched test specs, the failure code is returned exactly when the session fails; the codes for
      no tests and for skipped tests, unless these count as success, exactly when nothing runs and when all is
      skipped; and success in all other cases. */
  lemma ExitCodeMeaning(tests: seq<TestCase>, runs: seq<nat>, abortAfter: nat, unmatched: bool,
          zeroTestsCountAsSuccess: bool)
    requires IsRun(tests, runs, abortAfter)
    ensures var code := ExitCode(Added(tests, runs, |runs|), unmatched, zeroTestsCountAsSuccess);
      && (code == UNMATCHED_TEST_SPEC <==> unmatched)
      && (code == TEST_FAILURE <==> !unmatched && SessionFails(tests, abortAfter))
      && (code == NO_TESTS_RUN <==> !unmatched && !zeroTestsCountAsSuccess && SessionRunsNothing(tests, abortAfter))
      && (code == ALL_TESTS_SKIPPED <==> !unmatched && !zeroTestsCountAsSuccess && SessionSkipsAll(tests, abortAfter))
  {
    hide IsRun, Added, Assertions, SomeFails, SomePassesUnexpectedly;
    RunFailsIff(tests, runs, abortAfter);
    RunSkipsIff(tests, runs, abortAfter);
  }

  /** The end of a session, from the check of the test specs on. */
  method RunInternal(tests: seq<TestCase>, matches: seq<Match>, abortAfter: nat, invalidSpecs: bool, listed: bool,
                     warnAboutUnmatched: bool, zeroTestsCountAsSuccess: bool) returns (code: int)
    requires forall i :: 0 <= i < |tests| ==> tests[i].cycles != []
    ensures invalidSpecs ==> code == INVALID_TEST_SPEC
    ensures !invalidSpecs && listed ==> code == 0
    ensures !invalidSpecs && !listed ==>
              var unmatched := warnAboutUnmatched && exists i :: 0 <= i < |matches| && matches[i].tests == 0;
              && code in {0, UNMATCHED_TEST_SPEC, TEST_FAILURE, NO_TESTS_RUN, ALL_TESTS_SKIPPED}
              && (code == UNMATCHED_TEST_SPEC <==> unmatched)
              && (code == TEST_FAILURE <==> !unmatched && SessionFails(tests, abortAfter))
              && (code == NO_TESTS_RUN <==>
                  !unmatched && !zeroTestsCountAsSuccess && SessionRunsNothing(tests, abortAfter))
              && (code == ALL_TESTS_SKIPPED <==>
                  !unmatched && !zeroTestsCountAsSuccess && SessionSkipsAll(tests, abortAfter))
  {
    hide IsRun, Added, Assertions, SessionFails, SessionRunsNothing, SessionSkipsAll;
    if invalidSpecs { return INVALID_TEST_SPEC; }
    if listed { return 0; }
    var context := new RunContext(abortAfter);
    var totals, skipped;
    ghost var runs;
    totals, skipped, runs := Execute(tests, context);
    var unmatchedTestSpecs := false;
    for i := 0 to |matches|
      invariant unmatchedTestSpecs <==> exists j :: 0 <= j < i && matches[j].tests == 0
    {
      if matches[i].tests == 0 {
        unmatchedTestSpecs := true;
      }
    }
    ExitCodeMeaning(tests, runs, abortAfter, unmatchedTestSpecs && warnAboutUnmatched, zeroTestsCountAsSuccess);
    if unmatchedTestSpecs && warnAboutUnmatched { return UNMATCHED_TEST_SPEC; }
    if totals.testCases.Total() == 0 && !zeroTestsCountAsSuccess { return NO_TESTS_RUN; }
    if totals.testCases.Total() > 0 && totals.testCases.Total() == totals.testCases.skipped
        && !zeroTestsCountAsSuccess {
      return ALL_TESTS_SKIPPED;
    }
    if totals.assertions.failed > 0 { return TEST_FAILURE; }
    code := 0;
  }
}
