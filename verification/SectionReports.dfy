/** The section reports of one cycle: every section reported as started is reported as ended, and the reports
    nest like brackets unless sections are left out of order after an exception. */
module SectionReports {
  import opened TrackerTree
  import opened TestBody
  import opened TrackerPaths
  import opened TrackerMachine

  /** What a sequence of reports leaves: the started sections not yet ended, outermost first, or `Broken`
      when some report ends a section that is not the innermost one. */
  datatype Nesting = Broken | Nested(still: seq<NameAndLocation>)

  function NestingOf(rs: seq<Report>): Nesting {
    if rs == [] then Nested([]) else After(NestingOf(rs[..|rs| - 1]), rs[|rs| - 1])
  }

  function After(n: Nesting, report: Report): Nesting {
    match n
    case Broken => Broken
    case Nested(still) =>
      match report
      case SectionStarting(id) => Nested(still + [id])
      case SectionEnded(id) =>
        if still != [] && still[|still| - 1] == id then Nested(still[..|still| - 1]) else Broken
  }

  ghost function Started(rs: seq<Report>): multiset<NameAndLocation> {
    if rs == [] then multiset{}
    else
      Started(rs[..|rs| - 1])
      + (match rs[|rs| - 1] case SectionStarting(id) => multiset{id} case SectionEnded(_) => multiset{})
  }

  ghost function Ended(rs: seq<Report>): multiset<NameAndLocation> {
    if rs == [] then multiset{}
    else
      Ended(rs[..|rs| - 1])
      + (match rs[|rs| - 1] case SectionStarting(_) => multiset{} case SectionEnded(id) => multiset{id})
  }

  lemma OneMore(rs: seq<Report>, report: Report)
    ensures NestingOf(rs + [report]) == After(NestingOf(rs), report)
    ensures Started(rs + [report]) == Started(rs)
        + (match report case SectionStarting(id) => multiset{id} case SectionEnded(_) => multiset{})
    ensures Ended(rs + [report])
        == Ended(rs) + (match report case SectionStarting(_) => multiset{} case SectionEnded(id) => multiset{id})
  {
    assert (rs + [report])[..|rs|] == rs;
  }

  function Reversed(ids: seq<NameAndLocation>): (r: seq<NameAndLocation>)
    ensures |r| == |ids| && forall k :: 0 <= k < |ids| ==> r[k] == ids[|ids| - 1 - k]
  {
    seq(|ids|, k requires 0 <= k < |ids| => ids[|ids| - 1 - k])
  }

  lemma ReversedAdd(ids: seq<NameAndLocation>, id: NameAndLocation)
    ensures Reversed(ids + [id]) == [id] + Reversed(ids)
    ensures multiset(Reversed(ids + [id])) == multiset(Reversed(ids)) + multiset{id}
  {
    assert Reversed(ids + [id]) == [id] + Reversed(ids);
  }

  /** Whatever a body does, the sections still open after it are those open before it, and inside them those
      an exception has left. */
  lemma {:induction false} BodyReports(r: Run, b: Body, d: nat, throws: Throws, still: seq<NameAndLocation>)
    requires Valid(r) && r.unfinished == [] && NestingOf(r.reports) == Nested(still)
    ensures var (res, thrown) := ExecBody(r, b, d, throws);
      && NestingOf(res.reports) == Nested(still + Reversed(res.unfinished))
      && (!thrown ==> res.unfinished == [])
    decreases b, 1, 0
  {
    match b
    case Gen(id, size, rest) =>
      var (c, index) := AcquireGenerator(r.ctx, id, size);
      BodyReports(r.(ctx := c, trace := r.trace + [Value(id, index)]), rest, d, throws, still);
    case Subs(ss) => SectionsReports(r, b, 0, d, throws, still);
  }

  lemma {:induction false} SectionsReports(r: Run, b: Body, i: nat, d: nat, throws: Throws, still: seq<NameAndLocation>)
    requires b.Subs? && Valid(r) && r.unfinished == [] && NestingOf(r.reports) == Nested(still)
    ensures var (res, thrown) := ExecSections(r, b, i, d, throws);
      && NestingOf(res.reports) == Nested(still + Reversed(res.unfinished))
      && (!thrown ==> res.unfinished == [])
    decreases b, 0, |b.sections| - i
  {
    hide Valid, NestingOf;
    assert still + [] == still;
    if i < |b.sections| {
      var (r1, thrown) := ExecOne(r, b.sections[i], d + 1, throws);
      OneReports(r, b.sections[i], d + 1, throws, still);
      if !thrown {
        SectionsReports(r1, b, i + 1, d, throws, still);
      }
    }
  }

  /** The end of a section, left by an exception or not. */
  lemma SectionEndReports(still: seq<NameAndLocation>, id: NameAndLocation, early: seq<NameAndLocation>,
          rs: seq<Report>)
    requires NestingOf(rs) == Nested((still + [id]) + Reversed(early))
    ensures NestingOf(rs) == Nested(still + Reversed(early + [id]))
    ensures early == [] ==> NestingOf(rs + [SectionEnded(id)]) == Nested(still + Reversed([]))
  {
    ReversedAdd(early, id);
    assert (still + [id]) + Reversed(early) == still + ([id] + Reversed(early));
    OneMore(rs, SectionEnded(id));
    assert still + [] == still == (still + [id])[..|still + [id]| - 1];
    assert (still + [id]) + [] == still + [id];
  }

  lemma TraceValid(r: Run, trace: Trace)
    requires Valid(r)
    ensures Valid(r.(trace := trace))
  {
  }

  lemma {:induction false} OneReports(r: Run, s: Sec, d: nat, throws: Throws, still: seq<NameAndLocation>)
    requires Valid(r) && r.unfinished == [] && NestingOf(r.reports) == Nested(still)
    ensures var (res, thrown) := ExecOne(r, s, d, throws);
      && NestingOf(res.reports) == Nested(still + Reversed(res.unfinished))
      && (!thrown ==> res.unfinished == [])
    decreases s.body, 2, 0
  {
    hide Valid, NestingOf, Reversed, IsOpen, AcquireSection, CloseUpTo, Fail;
    var (r1, entered) := SectionStarted(r, s.id);
    if entered {
      OneMore(r.reports, SectionStarting(s.id));
      var inner := r1.(trace := r1.trace + [Enter(s.id)]);
      TraceValid(r1, inner.trace);
      BodyReports(inner, s.body, d, throws, still + [s.id]);
      var (ran, thrown) := ExecBody(inner, s.body, d, throws);
      SectionEndReports(still, s.id, ran.unfinished, ran.reports);
    } else {
      assert still + Reversed([]) == still;
    }
  }

  /** Ending the left sections outermost first empties the last `n` of `still` exactly when they are the left
      sections innermost first. */
  lemma {:induction false} UnfinishedReports(r: Run, n: nat, still: seq<NameAndLocation>)
    requires Valid(r) && r.active == [] && n <= |r.unfinished|
    ensures var res := EndUnfinished(r, n).reports;
      && Started(res) == Started(r.reports)
      && Ended(res) == Ended(r.reports) + multiset(r.unfinished[..n])
      && (NestingOf(r.reports) == Nested(still) && n <= |still| ==>
            NestingOf(res) == if r.unfinished[..n] == still[|still| - n..] then Nested(still[..|still| - n])
                else Broken)
      && (NestingOf(r.reports) == Broken ==> NestingOf(res) == Broken)
    decreases n
  {
    hide Valid, NestingOf, Started, Ended;
    if n > 0 {
      var last := r.unfinished[n - 1];
      OneMore(r.reports, SectionEnded(last));
      var next := EndSection(r, last);
      UnfinishedReports(next, n - 1, if still != [] then still[..|still| - 1] else []);
      LastOfBoth(r.unfinished, n, still);
    }
  }

  lemma LastOfBoth(ids: seq<NameAndLocation>, n: nat, still: seq<NameAndLocation>)
    requires 0 < n <= |ids|
    ensures multiset(ids[..n]) == multiset{ids[n - 1]} + multiset(ids[..n - 1])
    ensures n <= |still| ==>
      var fewer := still[..|still| - 1];
      && fewer[..|fewer| - (n - 1)] == still[..|still| - n]
      && (ids[..n] == still[|still| - n..] <==>
          ids[n - 1] == still[|still| - 1] && ids[..n - 1] == fewer[|fewer| - (n - 1)..])
  {
    assert ids[..n] == ids[..n - 1] + [ids[n - 1]];
    if n <= |still| {
      var fewer := still[..|still| - 1];
      assert still[|still| - n..] == fewer[|fewer| - (n - 1)..] + [still[|still| - 1]];
      assert ids[..n][..n - 1] == ids[..n - 1];
      assert still[|still| - n..][..n - 1] == fewer[|fewer| - (n - 1)..];
    }
  }

  lemma AfterBalance(still: seq<NameAndLocation>, report: Report)
    requires After(Nested(still), report).Nested?
    ensures var now := After(Nested(still), report).still;
      match report
      case SectionStarting(id) => multiset(now) == multiset(still) + multiset{id}
      case SectionEnded(id) => multiset(still) == multiset(now) + multiset{id}
  {
    if report.SectionEnded? {
      assert still == still[..|still| - 1] + [report.id];
    }
  }

  lemma {:induction false} StillOpen(rs: seq<Report>)
    ensures NestingOf(rs).Nested? ==> Started(rs) == Ended(rs) + multiset(NestingOf(rs).still)
  {
    hide After;
    if rs != [] && NestingOf(rs).Nested? {
      var most := rs[..|rs| - 1];
      BrokenStays(rs[|rs| - 1]);
      StillOpen(most);
      AfterBalance(NestingOf(most).still, rs[|rs| - 1]);
    }
  }

  lemma BrokenStays(report: Report)
    ensures After(Broken, report) == Broken
  {
  }

  lemma ReversedSame(ids: seq<NameAndLocation>)
    ensures multiset(Reversed(ids)) == multiset(ids)
    decreases |ids|
  {
    if ids != [] {
      var most := ids[..|ids| - 1];
      ReversedSame(most);
      ReversedAdd(most, ids[|ids| - 1]);
      assert ids == most + [ids[|ids| - 1]];
    }
  }

  /** The sections the exception of a cycle left, innermost first; none if nothing was thrown. */
  function LeftEarly(root: Tracker, id: NameAndLocation, b: Body, throws: Throws): seq<NameAndLocation> {
    var c := AcquireSection(Context(root, [], false, false), id).0;
    ExecBody(Run(c, [], [], [SectionStarting(id)], []), b, 0, throws).0.unfinished
  }

  /** In one cycle of any test case, from any state of its trackers and however its sections throw, the sections
      reported as started and as ended are the same, each as often. The reports nest like brackets if and only
      if the sections an exception left read the same in both directions, as none or one always do. */
  lemma ReportsBalance(root: Tracker, id: NameAndLocation, b: Body, throws: Throws)
    ensures var r := ExecCycle(root, id, b, throws);
      var early := LeftEarly(root, id, b, throws);
      && Started(r.reports) == Ended(r.reports)
      && r.active == [] && r.unfinished == []
      && (NestingOf(r.reports) == Nested([]) <==> early == Reversed(early))
  {
    hide NestingOf, Started, Ended, AcquireSection, ExecBody, CloseUpTo, Reversed;
    var (c, p) := AcquireSection(Context(root, [], false, false), id);
    var started := Run(c, [], [], [SectionStarting(id)], []);
    FirstReport(id);
    BodyReports(started, b, 0, throws, [id]);
    var (r, thrown) := ExecBody(started, b, 0, throws);
    var closed := if p <= r.ctx.current then CloseUpTo(r.ctx, p) else r.ctx.(fault := true);
    UnfinishedReports(r.(ctx := closed), |r.unfinished|, [id] + Reversed(r.unfinished));
    EndUnfinishedEmpty(r.(ctx := closed), |r.unfinished|);
    LastReport(id, r.unfinished, r.reports, EndUnfinished(r.(ctx := closed), |r.unfinished|).reports);
  }

  lemma FirstReport(id: NameAndLocation)
    ensures NestingOf([SectionStarting(id)]) == Nested([id])
  {
    assert [] + [SectionStarting(id)] == [SectionStarting(id)];
    OneMore([], SectionStarting(id));
  }

  lemma LastReport(id: NameAndLocation, early: seq<NameAndLocation>, before: seq<Report>, after: seq<Report>)
    requires NestingOf(before) == Nested([id] + Reversed(early))
    requires Started(after) == Started(before) && Ended(after) == Ended(before) + multiset(early[..|early|])
    requires var still := [id] + Reversed(early);
      NestingOf(after) == if early[..|early|] == still[|still| - |early|..] then Nested(still[..|still| - |early|])
          else Broken
    ensures var rs := after + [SectionEnded(id)];
      && Started(rs) == Ended(rs)
      && (NestingOf(rs) == Nested([]) <==> early == Reversed(early))
  {
    hide NestingOf, Started, Ended, Reversed;
    var still := [id] + Reversed(early);
    assert still[1..] == Reversed(early) && still[..1] == [id] && early[..|early|] == early;
    OneMore(after, SectionEnded(id));
    StillOpen(before);
    ReversedSame(early);
    assert multiset(still) == multiset{id} + multiset(early);
  }

  lemma {:induction false} EndUnfinishedEmpty(r: Run, n: nat)
    requires Valid(r) && n <= |r.unfinished| && r.active == []
    ensures EndUnfinished(r, n).unfinished == []
    decreases n
  {
    if n > 0 {
      EndUnfinishedEmpty(EndSection(r, r.unfinished[n - 1]), n - 1);
    }
  }
}
