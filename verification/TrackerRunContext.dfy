/** The run context as an object: it runs a test body over and over, driving the tracker objects. */
module TrackerRunContext {
  import opened TrackerTree
  import opened TestBody
  import opened TrackerPaths
  import opened TrackerHeap
  import opened TrackerProgress
  import opened TrackerRunTest
  import opened SectionReports
  import opened SectionUnwinding
  import Machine = TrackerMachine

  class RunContext {
    const ctx: TrackerContext
    var active: seq<ITracker>
    var unfinished: seq<NameAndLocation>
    var reports: seq<Machine.Report>
    var trace: Trace
    var testCaseTracker: ITracker?
    ghost var places: seq<Path>
    ghost var home: Path

    constructor (ctx: TrackerContext)
      ensures this.ctx == ctx && active == [] && places == [] && unfinished == [] && reports == [] && trace == []
      ensures testCaseTracker == null
    {
      this.ctx := ctx;
      active, unfinished, reports, trace, places := [], [], [], [], [];
      testCaseTracker, home := null, [];
    }

    ghost function View(): Machine.Run
      reads this, ctx
    {
      Machine.Run(ctx.View(), places, unfinished, reports, trace)
    }

    /** The open sections are trackers that sit where the model says. */
    ghost predicate Valid()
      reads this, ctx, ctx.table.Values
    {
      && ctx.Valid()
      && Machine.Valid(View())
      && |active| == |places|
      && (forall i :: 0 <= i < |places| ==> places[i] in ctx.table && ctx.table[places[i]] == active[i])
      && Housed()
    }

    /** The test case's tracker sits above the open sections. */
    ghost predicate Housed()
      reads this, ctx
    {
      testCaseTracker != null ==>
        && home in ctx.table && ctx.table[home] == testCaseTracker && home <= ctx.here
        && forall i :: 0 <= i < |places| ==> home < places[i]
    }

    /** m_activeSections.push_back, and the report that the section starts. */
    method Push(tracker: ITracker, ghost q: Path, id: NameAndLocation)
      requires Valid() && tracker.ctx == ctx && tracker.Sits(q) && ctx.here == q
      requires Machine.Valid(View().(active := places + [q])) && (testCaseTracker != null ==> home < q)
      modifies this`active, this`places, this`reports
      ensures Valid()
      ensures View() == old(View()).(active := old(places) + [q],
          reports := old(reports) + [Machine.SectionStarting(id)])
    {
      hide Consistent;
      active := active + [tracker];
      places := places + [q];
      reports := reports + [Machine.SectionStarting(id)];
    }

    /** SectionTracker::acquire keeps the open sections where they are. */
    method Acquire(id: NameAndLocation) returns (tracker: ITracker, ghost q: Path)
      requires Valid()
      modifies ctx, ctx.table.Values
      ensures Valid() && fresh(ctx.table.Values - old(ctx.table.Values))
      ensures tracker.ctx == ctx && tracker.Sits(q) && Machine.Valid(old(View()))
      ensures View() == old(View()).(ctx := ctx.View())
          && (ctx.View(), q) == Machine.AcquireSection(old(ctx.View()), id)
    {
      hide Consistent, Machine.AcquireSection;
      tracker, q := ctx.AcquireSection(id);
      ctx.Known(ctx.here);
    }

    /** An internal error: the section stays out. */
    method Fault()
      requires Valid()
      modifies ctx`fault
      ensures Valid() && View() == old(View()).(ctx := old(ctx.View()).(fault := true))
    {
      hide Consistent;
      ctx.RaiseInternalError();
    }

    method SectionStarted(id: NameAndLocation) returns (entered: bool)
      requires Valid()
      modifies this`active, this`places, this`unfinished, this`reports, this`trace, ctx, ctx.table.Values
      ensures Valid() && fresh(ctx.table.Values - old(ctx.table.Values))
      ensures Machine.Valid(old(View())) && (View(), entered) == Machine.SectionStarted(old(View()), id)
    {
      hide Consistent, Machine.AcquireSection, Machine.Valid;
      ghost var before := View();
      var tracker, q := Acquire(id);
      ctx.Known(q);
      ctx.SamePlace(q);
      StartedCases(before, id);
      entered := tracker.IsOpen() && ctx.current == tracker;
      if entered {
        Push(tracker, q, id);
      } else if tracker.IsOpen() {
        Fault();
      }
    }

    /** The three ways SectionStarted can end, by the tracker acquired. */
    lemma StartedCases(r: Machine.Run, id: NameAndLocation)
      requires Machine.Valid(r)
      ensures var (c, p) := Machine.AcquireSection(r.ctx, id);
        var (res, entered) := Machine.SectionStarted(r, id);
        && IsPath(c.root, p)
        && entered == (IsOpen(At(c.root, p)) && c.current == p)
        && (!IsOpen(At(c.root, p)) ==> res == r.(ctx := c))
        && (IsOpen(At(c.root, p)) && c.current != p ==> res == r.(ctx := c.(fault := true)))
        && (entered ==>
              && res == r.(ctx := c, active := r.active + [p], reports := r.reports + [Machine.SectionStarting(id)])
              && Machine.Valid(r.(ctx := c, active := r.active + [p])))
    {
      var res := Machine.SectionStarted(r, id).0;
    }

    /** m_activeSections.pop_back, once the context has moved above the innermost section. */
    method Pop(ghost before: Machine.Run)
      requires ctx.Valid() && |active| == |places| > 0 && Machine.Valid(before) && before.active == places
      requires forall i :: 0 <= i < |places| - 1 ==> places[i] in ctx.table && ctx.table[places[i]] == active[i]
      requires ctx.here == Parent(Machine.Innermost(before))
      requires testCaseTracker != null ==>
        && home in ctx.table && ctx.table[home] == testCaseTracker
        && forall i :: 0 <= i < |places| ==> home < places[i]
      modifies this`active, this`places
      ensures Valid() && View() == Machine.Pop(old(View()))
    {
      hide Consistent;
      ctx.Known(ctx.here);
      Machine.PopValid(before, ctx.View());
      active, places := active[..|active| - 1], places[..|places| - 1];
      assert View().active == Machine.Pop(before).active;
    }

    /** The sections around the innermost one are not below it. */
    lemma NotBelow(r: Machine.Run)
      requires Machine.Valid(r) && r.active != []
      ensures testCaseTracker != null && home < Machine.Innermost(r) ==> !(Machine.Innermost(r) < home)
      ensures forall i :: 0 <= i < |r.active| - 1 ==> !(Machine.Innermost(r) < r.active[i])
    {
    }

    /** m_activeSections.back()->close(), and pop_back. */
    method CloseInnermost()
      requires Valid() && active != []
      modifies this`active, this`places, ctx, ctx.table.Values
      ensures Valid() && ctx.table.Values <= old(ctx.table.Values) && Machine.Valid(old(View()))
      ensures View() == Machine.Pop(old(View())).(ctx :=
          Machine.CloseUpTo(old(ctx.View()), Machine.Innermost(old(View()))))
    {
      hide Consistent;
      ghost var before := View();
      NotBelow(before);
      active[|active| - 1].Close(places[|places| - 1]);
      Pop(before);
    }

    /** m_activeSections.back()->fail(), and pop_back. */
    method FailInnermost()
      requires Valid() && active != []
      modifies this`active, this`places, ctx, ctx.table.Values
      ensures Valid() && ctx.table == old(ctx.table) && Machine.Valid(old(View()))
      ensures IsPath(old(ctx.tree), Machine.Innermost(old(View())))
      ensures View() == Machine.Pop(old(View())).(ctx := Machine.Fail(old(ctx.View()), Machine.Innermost(old(View()))))
    {
      hide Consistent;
      ghost var before := View();
      ctx.Known(places[|places| - 1]);
      active[|active| - 1].Fail(places[|places| - 1]);
      Pop(before);
    }

    method SectionEnded(id: NameAndLocation)
      requires Valid()
      modifies this`active, this`places, this`unfinished, this`reports, this`trace, ctx, ctx.table.Values
      ensures Valid() && ctx.table.Values <= old(ctx.table.Values)
      ensures Machine.Valid(old(View())) && View() == Machine.EndSection(old(View()), id)
    {
      hide TrackerContext.Valid, Housed, Machine.Valid, Machine.CloseUpTo;
      if active != [] {
        CloseInnermost();
      }
      Send(Machine.SectionEnded(id));
    }

    /** A report to the reporter. */
    method Send(report: Machine.Report)
      requires Valid()
      modifies this`reports
      ensures Valid() && View() == old(View()).(reports := old(reports) + [report])
    {
      hide Consistent;
      reports := reports + [report];
    }

    /** m_unfinishedSections.push_back. */
    method PutAside(id: NameAndLocation)
      requires Valid()
      modifies this`unfinished
      ensures Valid() && View() == old(View()).(unfinished := old(unfinished) + [id])
    {
      hide Consistent;
      unfinished := unfinished + [id];
    }

    method SectionEndedEarly(id: NameAndLocation)
      requires Valid() && active != []
      modifies this`active, this`places, this`unfinished, this`reports, this`trace, ctx, ctx.table.Values
      ensures Valid() && ctx.table.Values <= old(ctx.table.Values)
      ensures Machine.Valid(old(View())) && View() == Machine.EndSectionEarly(old(View()), id)
    {
      hide TrackerContext.Valid, Housed, Machine.Valid, Machine.CloseUpTo, Machine.Fail, Machine.Pop;
      if unfinished == [] {
        FailInnermost();
      } else {
        CloseInnermost();
      }
      PutAside(id);
    }

    /** The event of a GENERATE, with the trackers it moves. */
    method Generate(id: NameAndLocation, size: nat)
      requires Valid()
      modifies this`trace, ctx, ctx.table.Values
      ensures Valid() && fresh(ctx.table.Values - old(ctx.table.Values))
      ensures Machine.Valid(old(View()))
      ensures var (c, index) := Machine.AcquireGenerator(old(ctx.View()), id, size);
        View() == old(View()).(ctx := c, trace := old(trace) + [Value(id, index)])
    {
      hide Consistent, Machine.AcquireGenerator;
      var index := ctx.Generate(id, size);
      ctx.Known(ctx.here);
      trace := trace + [Value(id, index)];
    }

    method Note(id: NameAndLocation)
      requires Valid()
      modifies this`trace
      ensures Valid() && View() == old(View()).(trace := old(trace) + [Enter(id)])
    {
      hide Consistent;
      trace := trace + [Enter(id)];
    }

    /** The test's own code, which declares generators and sections as `b` says; the result tells whether
        it ends by an exception. */
    method InvokeBody(b: Body, d: nat, throws: Throws) returns (thrown: bool)
      requires Valid()
      modifies this`active, this`places, this`unfinished, this`reports, this`trace, ctx, ctx.table.Values
      ensures Valid() && fresh(ctx.table.Values - old(ctx.table.Values))
      ensures Machine.Valid(old(View())) && (View(), thrown) == Machine.ExecBody(old(View()), b, d, throws)
      decreases b, 1, 0
    {
      hide TrackerContext.Valid, Housed, Machine.Valid, Machine.AcquireGenerator, Machine.ExecSections;
      match b {
        case Gen(id, size, rest) =>
          Generate(id, size);
          thrown := InvokeBody(rest, d, throws);
        case Subs(ss) =>
          thrown := InvokeSections(b, 0, d, throws);
      }
    }

    method InvokeSections(b: Body, i: nat, d: nat, throws: Throws) returns (thrown: bool)
      requires b.Subs? && Valid()
      modifies this`active, this`places, this`unfinished, this`reports, this`trace, ctx, ctx.table.Values
      ensures Valid() && fresh(ctx.table.Values - old(ctx.table.Values))
      ensures Machine.Valid(old(View())) && (View(), thrown) == Machine.ExecSections(old(View()), b, i, d, throws)
      decreases b, 0, |b.sections| - i
    {
      hide TrackerContext.Valid, Housed, Machine.Valid, Machine.ExecOne;
      if i >= |b.sections| {
        return false;
      }
      thrown := InvokeOne(b.sections[i], d + 1, throws);
      if thrown {
        return true;
      }
      thrown := InvokeSections(b, i + 1, d, throws);
    }

    /** One SECTION, entered or passed over. */
    method InvokeOne(s: Sec, d: nat, throws: Throws) returns (thrown: bool)
      requires Valid()
      modifies this`active, this`places, this`unfinished, this`reports, this`trace, ctx, ctx.table.Values
      ensures Valid() && fresh(ctx.table.Values - old(ctx.table.Values))
      ensures Machine.Valid(old(View())) && (View(), thrown) == Machine.ExecOne(old(View()), s, d, throws)
      decreases s.body, 3, 0
    {
      hide Consistent, Machine.SectionStarted, Machine.ExecSection;
      var entered := SectionStarted(s.id);
      thrown := false;
      if entered {
        thrown := InvokeSection(s, d, throws);
      }
    }

    /** The body of a section just entered, and the destructor that ends it. */
    method InvokeSection(s: Sec, d: nat, throws: Throws) returns (thrown: bool)
      requires Valid() && active != [] && Machine.Innermost(View()) == ctx.here
      modifies this`active, this`places, this`unfinished, this`reports, this`trace, ctx, ctx.table.Values
      ensures Valid() && fresh(ctx.table.Values - old(ctx.table.Values))
      ensures Machine.Valid(old(View())) && (View(), thrown) == Machine.ExecSection(old(View()), s, d, throws)
      decreases s.body, 2, 0
    {
      hide TrackerContext.Valid, Housed, Machine.Valid, Machine.ExecBody, Machine.EndSection, Machine.EndSectionEarly;
      Note(s.id);
      thrown := InvokeBody(s.body, d, throws);
      if thrown || throws(d, trace) {
        SectionEndedEarly(s.id);
        thrown := true;
      } else {
        SectionEnded(s.id);
      }
    }

    /** handleUnfinishedSections(): reports the sections an exception has left, last one first. */
    method HandleUnfinishedSections()
      requires Valid() && active == []
      modifies this`active, this`places, this`unfinished, this`reports, this`trace, ctx, ctx.table.Values
      ensures Valid() && ctx.table.Values <= old(ctx.table.Values)
      ensures Machine.Valid(old(View())) && View() == Machine.EndUnfinished(old(View()), |old(unfinished)|)
      ensures ctx.View() == old(ctx.View())
    {
      hide TrackerContext.Valid, Machine.CloseUpTo, Machine.Valid, Housed;
      EndUnfinishedReports(View(), |unfinished|);
      var i := |unfinished|;
      while i > 0
        invariant 0 <= i <= |unfinished| && Valid() && active == [] && ctx.table.Values <= old(ctx.table.Values)
        invariant Machine.EndUnfinished(View(), i) == Machine.EndUnfinished(old(View()), |old(unfinished)|)
      {
        i := i - 1;
        SectionEnded(unfinished[i]);
      }
      Forget();
    }

    /** m_unfinishedSections.clear(). */
    method Forget()
      requires Valid()
      modifies this`unfinished
      ensures Valid() && View() == old(View()).(unfinished := [])
    {
      hide Consistent;
      unfinished := [];
    }

    /** Nothing reported and nothing done yet. */
    method Reset()
      requires Valid() && active == []
      modifies this`unfinished, this`reports, this`trace
      ensures Valid() && View() == Machine.Run(ctx.View(), [], [], [], [])
    {
      hide Consistent;
      unfinished, reports, trace := [], [], [];
    }

    method StartCycle()
      requires Valid() && active == [] && testCaseTracker == null
      modifies ctx`current, ctx`here, ctx`completed
      ensures Valid() && View() == old(View()).(ctx := Machine.Context(ctx.tree, [], false, ctx.fault))
    {
      hide Consistent;
      ctx.StartCycle();
      ctx.Known([]);
    }

    /** The start of a cycle: the test case's tracker is acquired and the test case reported. */
    method StartTestCase(id: NameAndLocation, b: Body, ghost filters: seq<string>)
      requires Valid() && active == [] && !ctx.fault && testCaseTracker == null
      requires BetweenCycles(ctx.tree, id, b, filters) && WellFormed(b, id)
      modifies this, ctx, ctx.table.Values
      ensures Valid() && fresh(ctx.table.Values - old(ctx.table.Values))
      ensures testCaseTracker != null && home == [0]
      ensures View() == BeginCycle(old(ctx.tree), id)
    {
      hide TrackerContext.Valid, Housed, Machine.AcquireSection, BetweenCycles, WellFormed, Machine.Valid;
      Entered(ctx.tree, id, b, filters);
      Reset();
      StartCycle();
      var tracker, q := Acquire(id);
      Send(Machine.SectionStarting(id));
      Hold(tracker, q);
    }

    lemma Entered(root: Tracker, id: NameAndLocation, b: Body, filters: seq<string>)
      requires BetweenCycles(root, id, b, filters) && WellFormed(b, id)
      ensures Machine.AcquireSection(Machine.Context(root, [], false, false), id).1 == [0]
      ensures Machine.Valid(BeginCycle(root, id)) && BeginCycle(root, id).ctx.current == [0]
    {
      EnterTestCase(root, id, b, filters);
    }

    method Hold(tracker: ITracker, ghost q: Path)
      requires Valid() && active == [] && tracker.ctx == ctx && tracker.Sits(q) && q == ctx.here
      modifies this`testCaseTracker, this`home
      ensures Valid() && testCaseTracker == tracker && home == q && View() == old(View())
    {
      hide Consistent;
      testCaseTracker, home := tracker, q;
    }

    method Release()
      requires Valid()
      modifies this`testCaseTracker
      ensures Valid() && testCaseTracker == null && View() == old(View())
    {
      hide Consistent;
      testCaseTracker := null;
    }

    /** m_testCaseTracker->close(), and whether it is successfully completed. */
    method CloseTestCase() returns (done: bool)
      requires Valid() && active == [] && testCaseTracker != null && home != []
      modifies this`testCaseTracker, ctx, ctx.table.Values
      ensures Valid() && testCaseTracker == null && ctx.table.Values <= old(ctx.table.Values)
      ensures Machine.Valid(old(View())) && home <= old(ctx.here)
      ensures View() == old(View()).(ctx := Machine.CloseUpTo(old(ctx.View()), home))
      ensures IsPath(ctx.tree, home) && done == (At(ctx.tree, home).state == CompletedSuccessfully)
    {
      var tracker: ITracker := testCaseTracker;
      Release();
      done := CloseOutermost(tracker, home);
    }

    method CloseOutermost(tracker: ITracker, ghost q: Path) returns (done: bool)
      requires Valid() && active == [] && testCaseTracker == null
      requires tracker.ctx == ctx && tracker.Sits(q) && q != [] && q <= ctx.here
      modifies ctx, ctx.table.Values
      ensures Valid() && ctx.table.Values <= old(ctx.table.Values) && Machine.Valid(old(View()))
      ensures View() == old(View()).(ctx := Machine.CloseUpTo(old(ctx.View()), q))
      ensures IsPath(ctx.tree, q) && done == (At(ctx.tree, q).state == CompletedSuccessfully)
    {
      hide Consistent;
      tracker.Close(q);
      ctx.Known(q);
      ctx.Known(ctx.here);
      done := tracker.state == CompletedSuccessfully;
    }

    /** One turn of runTest's loop; the result tells whether the test case is done. */
    method RunCycle(id: NameAndLocation, b: Body, ghost filters: seq<string>, throws: Throws) returns (done: bool)
      requires Valid() && active == [] && !ctx.fault && testCaseTracker == null
      requires BetweenCycles(ctx.tree, id, b, filters) && WellFormed(b, id)
      modifies this, ctx, ctx.table.Values
      ensures Valid() && testCaseTracker == null && fresh(ctx.table.Values - old(ctx.table.Values))
      ensures View() == Machine.ExecCycle(old(ctx.tree), id, b, throws)
      ensures IsPath(ctx.tree, [0]) && done == (At(ctx.tree, [0]).state == CompletedSuccessfully)
    {
      hide TrackerContext.Valid, Housed, Machine.Valid, Machine.AcquireSection, Machine.ExecBody, Machine.CloseUpTo,
          Machine.EndUnfinished, BetweenCycles, WellFormed;
      Entered(ctx.tree, id, b, filters);
      StartTestCase(id, b, filters);
      var _ := InvokeBody(b, 0, throws);
      done := CloseTestCase();
      HandleUnfinishedSections();
      Send(Machine.SectionEnded(id));
    }
  }

  /** One turn of the loop does the first of the cycles left; it uses it up unless a generator waits. */
  method Turn(run: RunContext, id: NameAndLocation, b: Body, ghost filters: seq<string>, throws: Throws)
          returns (done: bool)
    requires run.Valid() && run.active == [] && run.testCaseTracker == null && !run.ctx.fault
    requires BetweenCycles(run.ctx.tree, id, b, filters)
    requires WellFormed(b, id)
    modifies run, run.ctx, run.ctx.table.Values
    ensures run.Valid() && fresh(run.ctx.table.Values - old(run.ctx.table.Values))
    ensures run.active == [] && run.testCaseTracker == null && !run.ctx.fault
    ensures Started(run.reports) == Ended(run.reports) && StartedIds(run.reports) == [id] + Entered(run.trace)
    ensures var left := Left(old(run.ctx.tree), b, filters, throws);
      && left != [] && run.trace == left[0].trace
      && (!done ==> BetweenCycles(run.ctx.tree, id, b, filters))
      && if Waits(b, TestCaseFilters(filters), left[0]) then !done && Left(run.ctx.tree, b, filters, throws) == left
         else if done then |left| == 1
         else Left(run.ctx.tree, b, filters, throws) == left[1..]
  {
    hide Consistent, WellFormed, Waits, BetweenCycles, Left, Machine.ExecCycle, Started, Ended, StartedIds, Entered,
        NestingOf, LeftEarly, LeftBy, Reversed;
    ghost var root := run.ctx.tree;
    CycleStep(root, id, b, filters, throws);
    ReportsBalance(root, id, b, throws);
    CycleUnwinds(root, id, b, throws);
    done := run.RunCycle(id, b, filters, throws);
    assert At(run.ctx.tree, [0]) == run.ctx.tree.children[0];
  }

  lemma Start(b: Body, filters: seq<string>, throws: Throws)
    ensures forall id :: BetweenCycles(StartRun(filters), id, b, filters)
    ensures Left(StartRun(filters), b, filters, throws) == Enumerate(b, TestCaseFilters(filters), 0, [], throws)
  {
    RemainingFresh(b, TestCaseFilters(filters), 0, [], throws);
  }

  ghost predicate Logged(log: seq<Trace>, cycles: seq<Cycle>) {
    |log| <= |cycles| && forall k :: 0 <= k < |log| ==> log[k] == cycles[k].trace
  }

  /** In each cycle the test case and the sections entered are reported as started, in this order, and the same
      ones as ended. */
  ghost predicate Balanced(id: NameAndLocation, log: seq<Trace>, reports: seq<seq<Machine.Report>>) {
    && |reports| == |log|
    && forall k :: 0 <= k < |log| ==>
                   Started(reports[k]) == Ended(reports[k]) && StartedIds(reports[k]) == [id] + Entered(log[k])
  }

  lemma NothingLogged(id: NameAndLocation, cycles: seq<Cycle>)
    ensures Logged([], cycles) && Balanced(id, [], [])
  {
  }

  lemma LogOne(id: NameAndLocation, log: seq<Trace>, trace: Trace, cycles: seq<Cycle>, left: seq<Cycle>,
          reports: seq<seq<Machine.Report>>, more: seq<Machine.Report>)
    requires Logged(log, cycles) && left == cycles[|log|..] && left != [] && trace == left[0].trace
    requires Balanced(id, log, reports) && Started(more) == Ended(more) && StartedIds(more) == [id] + Entered(trace)
    ensures Logged(log + [trace], cycles) && Balanced(id, log + [trace], reports + [more])
    ensures |left| == 1 ==> |log + [trace]| == |cycles|
    ensures left[1..] == cycles[|log + [trace]|..]
  {
    hide Started, Ended, StartedIds, Entered;
  }

  /** runTest(): the loop over the cycles of one test case. It ends, without an internal error, after
      doing exactly the cycles that the recursive enumeration lists; in each of them the test
      case and the sections entered are reported as started, and the same ones as ended. */
  method RunTest(id: NameAndLocation, b: Body, filters: seq<string>, throws: Throws)
    returns (log: seq<Trace>, reports: seq<seq<Machine.Report>>)
    requires WellFormed(b, id)
        && NoneWaits(b, TestCaseFilters(filters), Enumerate(b, TestCaseFilters(filters), 0, [], throws))
    ensures var cycles := Enumerate(b, TestCaseFilters(filters), 0, [], throws);
      |log| == |cycles| && Logged(log, cycles)
    ensures Balanced(id, log, reports)
  {
    hide Consistent, WellFormed, Waits, BetweenCycles, Left, Enumerate, Started, Ended, StartedIds, Entered, Logged,
        Balanced, TrackerContext.Valid;
    var ctx := new TrackerContext(filters);
    Start(b, filters, throws);
    var run := new RunContext(ctx);
    ghost var cycles := Enumerate(b, TestCaseFilters(filters), 0, [], throws);
    var done := false;
    log, reports := [], [];
    NothingLogged(id, cycles);
    while !done
      invariant run.ctx == ctx && run.Valid() && run.active == [] && run.testCaseTracker == null && !ctx.fault
      invariant fresh(run) && fresh(ctx) && fresh(ctx.table.Values)
      invariant |log| <= |cycles| && Logged(log, cycles) && Balanced(id, log, reports)
      invariant done ==> |log| == |cycles|
      invariant !done ==>
          BetweenCycles(ctx.tree, id, b, filters) && Left(ctx.tree, b, filters, throws) == cycles[|log|..]
      decreases |cycles| - |log|, !done
    {
      ghost var left := Left(ctx.tree, b, filters, throws);
      done := Turn(run, id, b, filters, throws);
      LogOne(id, log, run.trace, cycles, left, reports, run.reports);
      log := log + [run.trace];
      reports := reports + [run.reports];
    }
  }
}
