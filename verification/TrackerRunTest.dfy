/** Re-running a test case until its tracker is complete runs exactly the cycles that the recursive
    enumeration lists, in that order. */
module TrackerRunTest {
  import opened TrackerTree
  import opened TestBody
  import opened TrackerPaths
  import opened TrackerMachine
  import opened TrackerCycle
  import opened TrackerProgress
  import opened TrackerTidy
  import opened TrackerWait
  import opened TrackerLift
  import opened TrackerLiftRun

  /** The filters of the test case's own tracker. */
  function TestCaseFilters(filters: seq<string>): seq<string> {
    NextFilters(InitialFilters(filters))
  }

  function StartRun(filters: seq<string>): Tracker {
    FreshSection(NameAndLocation("{root}", "", 0), InitialFilters(filters))
  }

  /** The root tracker before a cycle of a test case that is not done. */
  ghost predicate BetweenCycles(root: Tracker, id: NameAndLocation, b: Body, filters: seq<string>)
  {
    && root.kind == Section(InitialFilters(filters))
    && |root.children| <= 1
    && (root.children != [] ==>
          && var t := root.children[0];
          && t.id == id && t.kind == Section(TestCaseFilters(filters))
          && t.state != NotStarted && !Finished(t.state)
          && Tidy(t.children, b, TestCaseFilters(filters)))
  }

  /** The cycles a test case has left. */
  ghost function Left(root: Tracker, b: Body, filters: seq<string>, throws: Throws): seq<Cycle>
  {
    Remaining(if root.children == [] then [] else root.children[0].children, b, TestCaseFilters(filters), 0, [], throws)
  }

  lemma {:induction false} EndUnfinishedReports(r: Run, n: nat)
    requires Valid(r) && n <= |r.unfinished| && r.active == []
    ensures var res := EndUnfinished(r, n);
      && res.ctx == r.ctx && res.trace == r.trace && res.unfinished == []
    decreases n
  {
    if n > 0 {
      EndUnfinishedReports(EndSection(r, r.unfinished[n - 1]), n - 1);
    }
  }

  function TestCaseTracker(root: Tracker, id: NameAndLocation, filters: seq<string>): Tracker {
    if root.children == [] then FreshSection(id, TestCaseFilters(filters)) else root.children[0]
  }

  /** The test case below the root is like the one section of a body. */
  lemma TidyRoot(root: Tracker, id: NameAndLocation, b: Body, filters: seq<string>)
    requires BetweenCycles(root, id, b, filters)
    ensures Tidy(root.children, Subs([Sec(id, b)]), InitialFilters(filters))
    ensures Admits(TestCaseFilters(filters), id.name)
    ensures !IsComplete(TestCaseTracker(root, id, filters))
    ensures ChildAt(root, Subs([Sec(id, b)]), 0, InitialFilters(filters)) == TestCaseTracker(root, id, filters)
  {
  }

  /** The run right after the test case's tracker has been acquired and opened. */
  function BeginCycle(root: Tracker, id: NameAndLocation): Run {
    Run(AcquireSection(Context(root, [], false, false), id).0, [], [], [SectionStarting(id)], [])
  }

  lemma EnterTestCase(root: Tracker, id: NameAndLocation, b: Body, filters: seq<string>)
    requires BetweenCycles(root, id, b, filters) && WellFormed(b, id)
    ensures var k := TestCaseTracker(root, id, filters).(state := Executing);
      var r := BeginCycle(root, id);
      && AcquireSection(Context(root, [], false, false), id).1 == [0]
      && Valid(r) && !r.ctx.completed && r.ctx.current == [0] && IsPath(r.ctx.root, [0])
      && Focus(r.ctx, root, [], root.(state := ExecutingChildren, children := [k]), InitialFilters(filters))
      && Focus(r.ctx, r.ctx.root, [0], k, TestCaseFilters(filters))
  {
    var k := TestCaseTracker(root, id, filters).(state := Executing);
    var run := Run(Context(root, [], false, false), [], [], [], []);
    TidyRoot(root, id, b, filters);
    EnterSection(run, root, [], root, Subs([Sec(id, b)]), 0, InitialFilters(filters));
    PutOnly(root.children, k, k);
    assert [] + [0] == [0];
  }

  /** What one cycle does to the root and the test case below it. */
  lemma CycleRun(root: Tracker, id: NameAndLocation, b: Body, filters: seq<string>, throws: Throws)
    requires BetweenCycles(root, id, b, filters) && WellFormed(b, id)
    ensures var r := ExecCycle(root, id, b, throws);
      var own := TestCaseFilters(filters);
      var out := RunBody(TestCaseTracker(root, id, filters).(state := Executing), b, own, 0, [], throws);
      && !r.ctx.fault && r.active == [] && r.unfinished == [] && r.trace == out.trace
      && r.ctx.root == root.(state := ExecutingChildren, children := [Close(out.node, b, own)])
  {
    var own := TestCaseFilters(filters);
    var k := TestCaseTracker(root, id, filters).(state := Executing);
    var r1 := BeginCycle(root, id);
    EnterTestCase(root, id, b, filters);
    LiftBody(r1, r1.ctx.root, [0], k, b, own, 0, throws);
    RunCanClose(k, b, own, 0, [], throws);
    LeaveTestCase(root, r1.ctx, k, id, b, filters, ExecBody(r1, b, 0, throws).0, RunBody(k, b, own, 0, [], throws));
  }

  /** The end of a cycle: the test case's tracker is closed and sections left by an exception are reported. */
  lemma LeaveTestCase(root: Tracker, c: Context, k: Tracker, id: NameAndLocation, b: Body, filters: seq<string>, r: Run,
          out: Outcome)
    requires Focus(c, root, [], root.(state := ExecutingChildren, children := [k]), InitialFilters(filters))
        && IsPath(c.root, [0])
    requires Focus(r.ctx, c.root, [0], out.node, TestCaseFilters(filters))
    requires r.ctx.current == [0] + Chain(b) && CanClose(out.node, b)
    requires Valid(r) && r.active == []
    ensures [0] <= r.ctx.current
    ensures var closed := CloseUpTo(r.ctx, [0]);
      var ended := EndUnfinished(r.(ctx := closed), |r.unfinished|);
      && ended.active == [] && ended.unfinished == [] && ended.trace == r.trace && !ended.ctx.fault
      && ended.ctx.root == root.(state := ExecutingChildren, children := [Close(out.node, b, TestCaseFilters(filters))])
  {
    var begun := root.(state := ExecutingChildren, children := [k]);
    assert [] + [0] == [0];
    LeaveSection(c, root, [], begun, InitialFilters(filters), 0, Sec(id, b), TestCaseFilters(filters), r, out);
    PutOnly([], k, Close(out.node, b, TestCaseFilters(filters)));
    EndUnfinishedReports(r.(ctx := CloseUpTo(r.ctx, [0])), |r.unfinished|);
  }

  /** One cycle does the first of the cycles left, without an internal error. If a generator then waits, the
      same cycles are left; otherwise all but the first, and the test case is completed if that was the last. */
  lemma CycleStep(root: Tracker, id: NameAndLocation, b: Body, filters: seq<string>, throws: Throws)
    requires BetweenCycles(root, id, b, filters) && WellFormed(b, id)
    ensures var r := ExecCycle(root, id, b, throws);
      var left := Left(root, b, filters, throws);
      && !r.ctx.fault && r.active == [] && r.unfinished == []
      && left != [] && r.trace == left[0].trace
      && |r.ctx.root.children| == 1 && r.ctx.root.children[0].id == id
      && var done := r.ctx.root.children[0].state == CompletedSuccessfully;
         && (!done ==> BetweenCycles(r.ctx.root, id, b, filters))
         && (if Waits(b, TestCaseFilters(filters), left[0]) then !done && Left(r.ctx.root, b, filters, throws) == left
             else if done then |left| == 1
             else Left(r.ctx.root, b, filters, throws) == left[1..])
  {
    var t := TestCaseTracker(root, id, filters).(state := Executing);
    var own := TestCaseFilters(filters);
    CycleRun(root, id, b, filters, throws);
    TidyRoot(root, id, b, filters);
    TidyBody(t, b, own, 0, [], throws);
    HeadBody(t, b, own, 0, [], throws);
    if Waits(b, own, Left(root, b, filters, throws)[0]) {
      StayBody(t, b, own, 0, [], throws);
    } else {
      StepBody(t, b, own, 0, [], throws);
    }
  }

  function Min(a: nat, b: nat): nat {
    if a <= b then a else b
  }

  /** The runs did what the cycles of the list do, the one at `wait` again and again, without an internal error. */
  ghost predicate SameTraces(runs: seq<Run>, cycles: seq<Cycle>, wait: nat) {
    forall k :: 0 <= k < |runs| ==>
      Min(k, wait) < |cycles| && runs[k].trace == cycles[Min(k, wait)].trace && !runs[k].ctx.fault
  }

  /** Running for at most `n` cycles did the cycles of the list one after the other, and the test case was done
      after the last of them; but the one at `wait`, if there is one, went on for ever. */
  ghost predicate Follows(res: (seq<Run>, bool), n: nat, cycles: seq<Cycle>, wait: nat) {
    && |res.0| == (if wait < |cycles| then n else Min(n, |cycles|))
    && (res.1 <==> |cycles| <= wait && |cycles| <= n)
    && SameTraces(res.0, cycles, wait)
  }

  lemma FollowsNone(cycles: seq<Cycle>, wait: nat)
    requires cycles != []
    ensures Follows(([], false), 0, cycles, wait)
  {
  }

  lemma FollowsLast(r: Run, n: nat, cycles: seq<Cycle>, wait: nat)
    requires |cycles| == 1 && r.trace == cycles[0].trace && !r.ctx.fault && n > 0 && wait == 1
    ensures Follows(([r], true), n, cycles, wait)
  {
  }

  lemma FollowsAgain(r: Run, later: (seq<Run>, bool), n: nat, cycles: seq<Cycle>)
    requires cycles != [] && r.trace == cycles[0].trace && !r.ctx.fault && n > 0
    requires Follows(later, n - 1, cycles, 0)
    ensures Follows(([r] + later.0, later.1), n, cycles, 0)
  {
  }

  lemma FollowsOn(r: Run, later: (seq<Run>, bool), n: nat, cycles: seq<Cycle>, wait: nat)
    requires cycles != [] && r.trace == cycles[0].trace && !r.ctx.fault && n > 0 && wait > 0
    requires Follows(later, n - 1, cycles[1..], wait - 1)
    ensures Follows(([r] + later.0, later.1), n, cycles, wait)
  {
    var runs := [r] + later.0;
    forall k | 0 <= k < |runs|
      ensures Min(k, wait) < |cycles| && runs[k].trace == cycles[Min(k, wait)].trace && !runs[k].ctx.fault
    {
      if k > 0 {
        assert runs[k] == later.0[k - 1] && Min(k, wait) == Min(k - 1, wait - 1) + 1;
        assert cycles[1..][Min(k - 1, wait - 1)] == cycles[Min(k, wait)];
      }
    }
  }

  /** The run loop from the middle of a test case. */
  lemma {:induction false} RunTestLeft(root: Tracker, id: NameAndLocation, b: Body, filters: seq<string>,
          throws: Throws, n: nat)
    requires BetweenCycles(root, id, b, filters) && WellFormed(b, id)
    ensures var left := Left(root, b, filters, throws);
      Follows(RunTest(root, id, b, throws, n), n, left, FirstWait(b, TestCaseFilters(filters), left))
    decreases n
  {
    hide BetweenCycles, Left, WellFormed, ExecCycle, Follows, Waits;
    CycleStep(root, id, b, filters, throws);
    var left := Left(root, b, filters, throws);
    var wait := FirstWait(b, TestCaseFilters(filters), left);
    if n == 0 {
      FollowsNone(left, wait);
    } else {
      var r := ExecCycle(root, id, b, throws);
      assert FindChild(r.ctx.root.children, id) == 0;
      if r.ctx.root.children[0].state == CompletedSuccessfully {
        FollowsLast(r, n, left, wait);
      } else {
        RunTestLeft(r.ctx.root, id, b, filters, throws, n - 1);
        var later := RunTest(r.ctx.root, id, b, throws, n - 1);
        if Waits(b, TestCaseFilters(filters), left[0]) {
          FollowsAgain(r, later, n, left);
        } else {
          FollowsOn(r, later, n, left, wait);
        }
      }
    }
  }

  /** For every body, every filters and every way sections may throw: the cycles of the test case are those that
      the enumeration lists, one after the other and with no internal error, and the test case is done after the
      last one; but a cycle in which a generator waits and nothing throws is done again and again for ever. */
  lemma RunTestEnumerates(id: NameAndLocation, b: Body, filters: seq<string>, throws: Throws, n: nat)
    requires WellFormed(b, id)
    ensures var cycles := Enumerate(b, TestCaseFilters(filters), 0, [], throws);
      Follows(RunTest(StartRun(filters), id, b, throws, n), n, cycles, FirstWait(b, TestCaseFilters(filters), cycles))
  {
    RemainingFresh(b, TestCaseFilters(filters), 0, [], throws);
    RunTestLeft(StartRun(filters), id, b, filters, throws, n);
  }

  /** In none of the cycles does a generator wait. */
  ghost predicate NoneWaits(b: Body, filters: seq<string>, cycles: seq<Cycle>) {
    forall k :: 0 <= k < |cycles| ==> !Waits(b, filters, cycles[k])
  }

  /** Then the test case is done after exactly as many cycles as the enumeration lists. */
  lemma RunTestEnds(id: NameAndLocation, b: Body, filters: seq<string>, throws: Throws, n: nat)
    requires WellFormed(b, id)
        && NoneWaits(b, TestCaseFilters(filters), Enumerate(b, TestCaseFilters(filters), 0, [], throws))
    ensures var (runs, done) := RunTest(StartRun(filters), id, b, throws, n);
      var cycles := Enumerate(b, TestCaseFilters(filters), 0, [], throws);
      && |runs| == Min(n, |cycles|)
      && (done <==> n >= |cycles|)
      && forall k :: 0 <= k < |runs| ==> runs[k].trace == cycles[k].trace && !runs[k].ctx.fault
  {
    hide Waits, Enumerate, RunTest, WellFormed;
    RunTestEnumerates(id, b, filters, throws, n);
  }

  lemma {:induction false} NeverStuck(b: Body, filters: seq<string>, under: bool, n: nat, t: Trace)
    requires StuckFree(b, filters, under)
    ensures !StuckAt(b, filters, under, n, t)
    decreases b
  {
    match b
    case Gen(_, _, rest) => NeverStuck(rest, filters, true, n + 1, t);
    case Subs(ss) =>
      forall i | 0 <= i < |ss| && Admits(NextFilters(filters), ss[i].id.name)
        ensures !StuckAt(ss[i].body, NextFilters(filters), false, n + 1, t)
      {
        NeverStuck(ss[i].body, NextFilters(filters), false, n + 1, t);
      }
  }

  /** However sections throw, no generator waits when none is stuck. */
  lemma StuckFreeNoneWaits(b: Body, filters: seq<string>, throws: Throws)
    requires StuckFree(b, TestCaseFilters(filters), false)
    ensures NoneWaits(b, TestCaseFilters(filters), Enumerate(b, TestCaseFilters(filters), 0, [], throws))
  {
    hide StuckAt, Enumerate, StuckFree;
    var cycles := Enumerate(b, TestCaseFilters(filters), 0, [], throws);
    forall k | 0 <= k < |cycles| ensures !Waits(b, TestCaseFilters(filters), cycles[k]) {
      NeverStuck(b, TestCaseFilters(filters), false, 0, cycles[k].trace);
    }
  }
}
