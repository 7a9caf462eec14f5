/** What an exception leaves in a cycle, told from what the cycle did: the sections from the outermost down to
    the deepest one that throws. */
module SectionUnwinding {
  import opened TrackerTree
  import opened TestBody
  import opened TrackerPaths
  import opened TrackerMachine
  import opened TrackerRunTest
  import opened SectionReports
  import opened SectionFilters

  function EnteredBy(e: Event): seq<NameAndLocation> {
    match e
    case Enter(id) => [id]
    case Value(_, _) => []
  }

  /** The sections a cycle entered, outermost first. */
  function Entered(t: Trace): seq<NameAndLocation> {
    if t == [] then [] else EnteredBy(t[0]) + Entered(t[1..])
  }

  /** Of the sections at depths `d` + 1 to `d` + `m`, the depth below `d` of the deepest one that throws when the
      cycle has done `t`; 0 if none does. */
  function Deepest(throws: Throws, t: Trace, d: nat, m: nat): (left: nat)
    ensures left <= m
  {
    if m == 0 then 0 else if throws(d + m, t) then m else Deepest(throws, t, d, m - 1)
  }

  /** The sections left by an exception in a cycle that does `t`, outermost first. */
  function LeftBy(throws: Throws, t: Trace): seq<NameAndLocation> {
    Entered(t)[..Deepest(throws, t, 0, |Entered(t)|)]
  }

  /** The sections reported as started, in order. */
  function StartedIds(rs: seq<Report>): seq<NameAndLocation> {
    if rs == [] then []
    else StartedIds(rs[..|rs| - 1]) + (match rs[|rs| - 1] case SectionStarting(id) => [id] case SectionEnded(_) => [])
  }

  lemma OneMoreStarted(rs: seq<Report>, report: Report)
    ensures StartedIds(rs + [report]) == StartedIds(rs)
        + (match report case SectionStarting(id) => [id] case SectionEnded(_) => [])
  {
    assert (rs + [report])[..|rs|] == rs;
  }

  lemma {:induction false} DeepestBelow(throws: Throws, t: Trace, d: nat, m: nat)
    ensures var below := Deepest(throws, t, d + 1, m);
      Deepest(throws, t, d, m + 1) == if below > 0 then below + 1 else if throws(d + 1, t) then 1 else 0
    decreases m
  {
    if m > 0 {
      DeepestBelow(throws, t, d, m - 1);
    }
  }

  /** What running something from `r` to `res` at depth `d` did. */
  ghost predicate Unwound(r: Run, res: Run, thrown: bool, d: nat, throws: Throws) {
    && r.trace <= res.trace
    && var entered := Entered(res.trace[|r.trace|..]);
       var left := Deepest(throws, res.trace, d, |entered|);
       && res.unfinished == Reversed(entered[..left])
       && (thrown <==> left > 0)
       && StartedIds(res.reports) == StartedIds(r.reports) + entered
       && (if entered == [] then res.ctx.completed == r.ctx.completed else res.ctx.completed)
       && (r.ctx.completed ==> res.trace == r.trace)
  }

  /** Nothing was entered. */
  lemma UnwoundNothing(r: Run, res: Run, d: nat, throws: Throws)
    requires res.trace == r.trace && res.unfinished == [] && res.reports == r.reports
        && res.ctx.completed == r.ctx.completed
    ensures Unwound(r, res, false, d, throws)
  {
    assert res.trace[|r.trace|..] == [];
    assert StartedIds(r.reports) + [] == StartedIds(r.reports);
    assert Reversed([]) == [];
  }

  lemma GeneratorKeepsCycle(c: Context, id: NameAndLocation, size: nat)
    requires IsPath(c.root, c.current)
    ensures AcquireGenerator(c, id, size).0.completed == c.completed
  {
  }

  lemma SectionEntry(r: Run, id: NameAndLocation)
    requires Valid(r)
    ensures var (r1, entered) := SectionStarted(r, id);
      && r1.trace == r.trace && r1.unfinished == r.unfinished && r1.ctx.completed == r.ctx.completed
      && r1.reports == (if entered then r.reports + [SectionStarting(id)] else r.reports)
      && (r.ctx.completed ==> !entered)
  {
  }

  lemma SectionExit(r: Run, id: NameAndLocation)
    requires Valid(r) && r.active != []
    ensures var res := EndSection(r, id);
      res.trace == r.trace && res.unfinished == r.unfinished && res.ctx.completed
          && res.reports == r.reports + [SectionEnded(id)]
    ensures var res := EndSectionEarly(r, id);
      res.trace == r.trace && res.unfinished == r.unfinished + [id] && res.ctx.completed && res.reports == r.reports
  {
    CloseCompletes(r.ctx, Innermost(r));
  }

  lemma {:induction false} CloseCompletes(c: Context, p: Path)
    requires IsPath(c.root, c.current) && p != [] && p <= c.current
    ensures CloseUpTo(c, p).completed
    decreases |c.current|
  {
    if c.current != p {
      CloseCompletes(CloseCurrent(c), p);
    }
  }

  lemma {:induction false} BodyUnwinds(r: Run, b: Body, d: nat, throws: Throws)
    requires Valid(r) && r.unfinished == [] && !r.ctx.completed
    ensures var (res, thrown) := ExecBody(r, b, d, throws);
      Unwound(r, res, thrown, d, throws)
    decreases b, 1, 0
  {
    hide Unwound;
    match b
    case Gen(id, size, rest) =>
      var (c, index) := AcquireGenerator(r.ctx, id, size);
      GeneratorKeepsCycle(r.ctx, id, size);
      var next := r.(ctx := c, trace := r.trace + [Value(id, index)]);
      ValidAfterGenerator(r, c, next.trace);
      BodyUnwinds(next, rest, d, throws);
      var (res, thrown) := ExecBody(next, rest, d, throws);
      UnwoundValue(r, next, Value(id, index), res, thrown, d, throws);
    case Subs(ss) => SectionsUnwind(r, b, 0, d, throws);
  }

  lemma ValidAfterGenerator(r: Run, c: Context, trace: Trace)
    requires Valid(r) && IsPath(c.root, c.current) && r.ctx.current <= c.current
    ensures Valid(r.(ctx := c, trace := trace))
  {
  }

  lemma UnwoundValue(r: Run, next: Run, e: Event, res: Run, thrown: bool, d: nat, throws: Throws)
    requires e.Value? && !r.ctx.completed && next.trace == r.trace + [e] && next.reports == r.reports
        && next.ctx.completed == r.ctx.completed
    requires Unwound(next, res, thrown, d, throws)
    ensures Unwound(r, res, thrown, d, throws)
  {
    var w := res.trace[|r.trace|..];
    assert next.trace[|r.trace|] == e;
    assert w[0] == e && w[1..] == res.trace[|next.trace|..];
    assert [] + Entered(w[1..]) == Entered(w[1..]);
  }

  lemma {:induction false} SectionsUnwind(r: Run, b: Body, i: nat, d: nat, throws: Throws)
    requires b.Subs? && Valid(r) && r.unfinished == []
    ensures var (res, thrown) := ExecSections(r, b, i, d, throws);
      Unwound(r, res, thrown, d, throws)
    decreases b, 0, |b.sections| - i
  {
    hide Unwound, Valid;
    if i >= |b.sections| {
      UnwoundNothing(r, r, d, throws);
    } else {
      var (r1, thrown) := ExecOne(r, b.sections[i], d + 1, throws);
      OneUnwinds(r, b.sections[i], d, throws);
      if !thrown {
        NotThrown(r, r1, d, throws);
        SectionsUnwind(r1, b, i + 1, d, throws);
        var (res, later) := ExecSections(r1, b, i + 1, d, throws);
        UnwoundBoth(r, r1, res, later, d, throws);
      }
    }
  }

  lemma NotThrown(r: Run, res: Run, d: nat, throws: Throws)
    requires Unwound(r, res, false, d, throws)
    ensures res.unfinished == []
  {
  }

  lemma {:induction false} EnteredJoin(t: Trace, u: Trace)
    ensures Entered(t + u) == Entered(t) + Entered(u)
    decreases |t|
  {
    if t == [] {
      assert t + u == u;
    } else {
      EnteredJoin(t[1..], u);
      FirstOfBoth(t, u);
      EnteredFirst(t);
      EnteredFirst(t + u);
      hide Entered;
      Regroup(EnteredBy(t[0]), Entered(t[1..]), Entered(u));
    }
  }

  lemma FirstOfBoth(t: Trace, u: Trace)
    requires t != []
    ensures t + u != [] && (t + u)[0] == t[0] && (t + u)[1..] == t[1..] + u
  {
  }

  lemma Regroup(a: seq<NameAndLocation>, b: seq<NameAndLocation>, c: seq<NameAndLocation>)
    ensures a + (b + c) == (a + b) + c
    ensures a + [] == a && [] + a == a
  {
  }

  lemma EnteredFirst(t: Trace)
    requires t != []
    ensures Entered(t) == EnteredBy(t[0]) + Entered(t[1..])
  {
  }

  /** Once a section was entered, what comes after it in the same body enters none. */
  lemma UnwoundBoth(r: Run, r1: Run, res: Run, thrown: bool, d: nat, throws: Throws)
    requires Unwound(r, r1, false, d, throws) && Unwound(r1, res, thrown, d, throws)
    ensures Unwound(r, res, thrown, d, throws)
  {
    var first, second := r1.trace[|r.trace|..], res.trace[|r1.trace|..];
    assert res.trace[|r.trace|..] == first + second;
    EnteredJoin(first, second);
    if Entered(first) != [] {
      assert second == [] && Entered(second) == [];
    }
    hide Entered, StartedIds, Reversed, Deepest;
    Regroup(StartedIds(r.reports), Entered(first), Entered(second));
    Regroup(Entered(first), [], []);
    Regroup(Entered(second), [], []);
    Regroup(StartedIds(r.reports), [], []);
  }

  lemma {:induction false} OneUnwinds(r: Run, s: Sec, d: nat, throws: Throws)
    requires Valid(r) && r.unfinished == []
    ensures var (res, thrown) := ExecOne(r, s, d + 1, throws);
      Unwound(r, res, thrown, d, throws)
    decreases s.body, 2, 0
  {
    hide Unwound, Valid, SectionStarted, EndSection, EndSectionEarly;
    var (r1, entered) := SectionStarted(r, s.id);
    SectionEntry(r, s.id);
    if entered {
      var inner := r1.(trace := r1.trace + [Enter(s.id)]);
      TraceValid(r1, inner.trace);
      BodyUnwinds(inner, s.body, d + 1, throws);
      var (ran, thrown) := ExecBody(inner, s.body, d + 1, throws);
      SectionExit(ran, s.id);
      if thrown || throws(d + 1, ran.trace) {
        UnwoundSection(r, inner, s.id, ran, thrown, EndSectionEarly(ran, s.id), true, d, throws);
      } else {
        UnwoundSection(r, inner, s.id, ran, thrown, EndSection(ran, s.id), false, d, throws);
      }
    } else {
      UnwoundNothing(r, r1, d, throws);
    }
  }

  /** A section around what its body did. */
  lemma UnwoundSection(r: Run, inner: Run, id: NameAndLocation, ran: Run, thrown: bool, res: Run, early: bool, d: nat,
          throws: Throws)
    requires inner.trace == r.trace + [Enter(id)] && inner.reports == r.reports + [SectionStarting(id)]
        && !r.ctx.completed
    requires Unwound(inner, ran, thrown, d + 1, throws)
    requires res.trace == ran.trace && res.ctx.completed && early == (thrown || throws(d + 1, ran.trace))
    requires res.unfinished == (if early then ran.unfinished + [id] else ran.unfinished)
    requires res.reports == (if early then ran.reports else ran.reports + [SectionEnded(id)])
    ensures Unwound(r, res, early, d, throws)
  {
    var below := Entered(ran.trace[|inner.trace|..]);
    EnteredInside(r.trace, id, ran.trace);
    DeepestBelow(throws, res.trace, d, |below|);
    StartedInside(r.reports, id, ran.reports, below);
    LeftInside(id, below, Deepest(throws, ran.trace, d + 1, |below|));
    hide Entered, StartedIds, Deepest, Reversed;
  }

  lemma EnteredInside(before: Trace, id: NameAndLocation, after: Trace)
    requires before + [Enter(id)] <= after
    ensures before <= after && Entered(after[|before|..]) == [id] + Entered(after[|before| + 1..])
  {
    assert (before + [Enter(id)])[|before|] == Enter(id);
    assert after[|before|..][1..] == after[|before| + 1..];
  }

  lemma StartedInside(before: seq<Report>, id: NameAndLocation, after: seq<Report>, below: seq<NameAndLocation>)
    requires StartedIds(after) == StartedIds(before + [SectionStarting(id)]) + below
    ensures StartedIds(after) == StartedIds(before) + ([id] + below)
    ensures StartedIds(after + [SectionEnded(id)]) == StartedIds(after)
  {
    OneMoreStarted(before, SectionStarting(id));
    OneMoreStarted(after, SectionEnded(id));
  }

  lemma LeftInside(id: NameAndLocation, below: seq<NameAndLocation>, left: nat)
    requires left <= |below|
    ensures Reversed(([id] + below)[..left + 1]) == Reversed(below[..left]) + [id]
    ensures Reversed(([id] + below)[..0]) == Reversed(below[..0])
    ensures Reversed(([id] + below)[..1]) == Reversed(below[..0]) + [id]
  {
    assert ([id] + below)[..left + 1] == [id] + below[..left];
  }

  /** One cycle from any tracker state: the sections an exception left are told from what the cycle did, and
      the sections reported as started are the test case and the ones entered. */
  lemma CycleUnwinds(root: Tracker, id: NameAndLocation, b: Body, throws: Throws)
    ensures var r := ExecCycle(root, id, b, throws);
      && LeftEarly(root, id, b, throws) == Reversed(LeftBy(throws, r.trace))
      && StartedIds(r.reports) == [id] + Entered(r.trace)
  {
    hide Unwound, ExecBody, CloseUpTo, EndUnfinished;
    var (c, p) := AcquireSection(Context(root, [], false, false), id);
    var started := Run(c, [], [], [SectionStarting(id)], []);
    BodyUnwinds(started, b, 0, throws);
    var (r, thrown) := ExecBody(started, b, 0, throws);
    var closed := r.(ctx := if p <= r.ctx.current then CloseUpTo(r.ctx, p) else r.ctx.(fault := true));
    EndUnfinishedReports(closed, |r.unfinished|);
    EndsOnly(closed, |r.unfinished|);
    UnwoundCycle(started, r, thrown, id, throws);
    OneMoreStarted(EndUnfinished(closed, |r.unfinished|).reports, SectionEnded(id));
  }

  lemma UnwoundCycle(started: Run, r: Run, thrown: bool, id: NameAndLocation, throws: Throws)
    requires started.trace == [] && started.reports == [SectionStarting(id)] && Unwound(started, r, thrown, 0, throws)
    ensures r.unfinished == Reversed(LeftBy(throws, r.trace)) && StartedIds(r.reports) == [id] + Entered(r.trace)
  {
    assert r.trace[0..] == r.trace;
    assert [] + [SectionStarting(id)] == [SectionStarting(id)];
    OneMoreStarted([], SectionStarting(id));
    assert StartedIds([]) + [id] == [id];
  }

  lemma {:induction false} EndsOnly(r: Run, n: nat)
    requires Valid(r) && n <= |r.unfinished| && r.active == []
    ensures StartedIds(EndUnfinished(r, n).reports) == StartedIds(r.reports)
    decreases n
  {
    if n > 0 {
      OneMoreStarted(r.reports, SectionEnded(r.unfinished[n - 1]));
      EndsOnly(EndSection(r, r.unfinished[n - 1]), n - 1);
    }
  }

  /** The reports of a cycle that does `t` nest like brackets. */
  ghost predicate Nests(throws: Throws, t: Trace) {
    LeftBy(throws, t) == Reversed(LeftBy(throws, t))
  }

  /** What the reports of a run have to do with its trace. */
  ghost predicate Reported(id: NameAndLocation, r: Run, throws: Throws) {
    && Started(r.reports) == Ended(r.reports)
    && StartedIds(r.reports) == [id] + Entered(r.trace)
    && (NestingOf(r.reports) == Nested([]) <==> Nests(throws, r.trace))
  }

  lemma CycleReported(root: Tracker, id: NameAndLocation, b: Body, throws: Throws)
    ensures Reported(id, ExecCycle(root, id, b, throws), throws)
  {
    hide ExecCycle, LeftEarly, NestingOf, Started, Ended, LeftBy;
    var t := ExecCycle(root, id, b, throws).trace;
    CycleUnwinds(root, id, b, throws);
    ReportsBalance(root, id, b, throws);
    ReversedTwice(LeftBy(throws, t));
  }

  lemma ReversedTwice(ids: seq<NameAndLocation>)
    ensures Reversed(Reversed(ids)) == ids
  {
  }

  ghost predicate AllReported(id: NameAndLocation, runs: seq<Run>, throws: Throws) {
    forall k :: 0 <= k < |runs| ==> Reported(id, runs[k], throws)
  }

  lemma {:induction false} RunsReported(root: Tracker, id: NameAndLocation, b: Body, throws: Throws, n: nat)
    ensures AllReported(id, RunTest(root, id, b, throws, n).0, throws)
    decreases n
  {
    hide Reported, ExecCycle, AllReported;
    if n > 0 {
      var r := ExecCycle(root, id, b, throws);
      CycleReported(root, id, b, throws);
      RunsReported(r.ctx.root, id, b, throws, n - 1);
      RunTestStep(root, id, b, throws, n);
      hide RunTest;
      OneMoreReported(id, r, RunTest(r.ctx.root, id, b, throws, n - 1).0, throws);
    } else {
      NoneReported(id, throws);
    }
  }

  lemma RunTestStep(root: Tracker, id: NameAndLocation, b: Body, throws: Throws, n: nat)
    requires n > 0
    ensures var r := ExecCycle(root, id, b, throws);
      var runs := RunTest(root, id, b, throws, n).0;
      runs == [r] || runs == [r] + RunTest(r.ctx.root, id, b, throws, n - 1).0
  {
    hide ExecCycle;
  }

  lemma NoneReported(id: NameAndLocation, throws: Throws)
    ensures AllReported(id, [], throws)
  {
  }

  lemma OneMoreReported(id: NameAndLocation, r: Run, later: seq<Run>, throws: Throws)
    requires Reported(id, r, throws) && AllReported(id, later, throws)
    ensures AllReported(id, [r], throws) && AllReported(id, [r] + later, throws)
  {
    hide Reported;
    forall k | 0 <= k < |[r] + later| ensures Reported(id, ([r] + later)[k], throws) {
      if k > 0 {
        assert ([r] + later)[k] == later[k - 1];
      }
    }
  }

  /** In every cycle of a run, for all filters and every way sections may throw: the sections reported as started
      are the test
      case and those the enumeration says are entered, each is reported as ended, and the reports nest like
      brackets if and only if the ids of the entered sections, from the outermost to the deepest one that
      throws, read the same in both directions. */
  lemma RunReports(id: NameAndLocation, b: Body, filters: seq<string>, throws: Throws, n: nat, k: nat)
    requires WellFormed(b, id) && k < |RunTest(StartRun(filters), id, b, throws, n).0|
    ensures var runs := RunTest(StartRun(filters), id, b, throws, n).0;
      var cycles := Enumerate(b, TestCaseFilters(filters), 0, [], throws);
      var m := Min(k, FirstWait(b, TestCaseFilters(filters), cycles));
      && m < |cycles|
      && var t := cycles[m].trace;
      && StartedIds(runs[k].reports) == [id] + Entered(t)
      && Started(runs[k].reports) == Ended(runs[k].reports)
      && (NestingOf(runs[k].reports) == Nested([]) <==> Nests(throws, t))
  {
    hide RunTest, Enumerate, WellFormed, Waits, Nests, StartedIds, Started, Ended, NestingOf;
    RunTestEnumerates(id, b, filters, throws, n);
    RunsReported(StartRun(filters), id, b, throws, n);
    assert Reported(id, RunTest(StartRun(filters), id, b, throws, n).0[k], throws);
  }

  /** A section in a section; the inner one throws. */
  function NestedBody(): Body {
    Subs([Sec(Here("outer", 2), Subs([Sec(Here("inner", 3), Subs([]))]))])
  }

  function InnerThrows(): Throws {
    (d, t) => d == 2
  }

  lemma NestedBodyCycle()
    ensures WellFormed(NestedBody(), Here("case", 1))
    ensures var cycles := Enumerate(NestedBody(), [], 0, [], InnerThrows());
      cycles != [] && cycles[0].trace == [Enter(Here("outer", 2)), Enter(Here("inner", 3))]
  {
    var inner := Subs([Sec(Here("inner", 3), Subs([]))]);
    var outer := Here("outer", 2);
    assert WellFormed(inner.sections[0].body, Here("inner", 3)) && WellFormed(inner, outer);
    assert WellFormed(NestedBody().sections[0].body, outer);
    assert [] + [Enter(outer)] == [Enter(outer)];
    assert NestedBody().sections[0] == Sec(outer, inner);
    FirstCycle(inner, Here("inner", 3), Subs([]), 1, [Enter(outer)], InnerThrows());
    FirstCycle(NestedBody(), outer, inner, 0, [], InnerThrows());
  }

  /** The first cycle of a body with one section is the first one of that section. */
  lemma FirstCycle(b: Body, id: NameAndLocation, inner: Body, d: nat, trace: Trace, throws: Throws)
    requires b == Subs([Sec(id, inner)]) && Enumerate(inner, [], d + 1, trace + [Enter(id)], throws) != []
    ensures var cycles := Enumerate(b, [], d, trace, throws);
      cycles != [] && cycles[0].trace == Enumerate(inner, [], d + 1, trace + [Enter(id)], throws)[0].trace
  {
    assert b.sections[0] == Sec(id, inner);
    assert Enumerate(b, [], d, trace, throws) == EnumerateSections(b, 0, [], d, trace, throws, true);
  }

  /** In the first cycle of that body, the outer section is reported as ended before the inner one. */
  lemma UnnestedExample()
    ensures var runs := RunTest(StartRun([]), Here("case", 1), NestedBody(), InnerThrows(), 1).0;
      |runs| == 1 && NestingOf(runs[0].reports) != Nested([])
  {
    hide NestedBody, Enumerate, RunTest, NestingOf, WellFormed, Nests;
    NestedBodyCycle();
    InnerLeavesBoth();
    var none: seq<string> := [];
    assert TestCaseFilters(none) == none;
    RunTestUnfiltered(Here("case", 1), NestedBody(), InnerThrows(), 1);
    RunReports(Here("case", 1), NestedBody(), none, InnerThrows(), 1, 0);
  }

  lemma InnerLeavesBoth()
    ensures !Nests(InnerThrows(), [Enter(Here("outer", 2)), Enter(Here("inner", 3))])
  {
    var t := [Enter(Here("outer", 2)), Enter(Here("inner", 3))];
    var ids := [Here("outer", 2), Here("inner", 3)];
    assert t[1..] == [Enter(Here("inner", 3))] && t[1..][1..] == [];
    assert Entered(t[1..]) == [Here("inner", 3)] + Entered([]) == [Here("inner", 3)];
    assert Entered(t) == [Here("outer", 2)] + Entered(t[1..]) == ids;
    assert Deepest(InnerThrows(), t, 0, 2) == 2 && ids[..2] == ids;
    assert ids[0].line == 2 && Reversed(ids)[0].line == 3;
  }
}
