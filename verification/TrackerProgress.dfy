/** Every cycle uses up exactly the first of the cycles a tracker has left. */
module TrackerProgress {
  import opened TrackerTree
  import opened TestBody
  import opened TrackerCycle
  import opened TrackerTidy

  /** A tracker without children has the whole body left. */
  lemma RemainingFresh(b: Body, filters: seq<string>, d: nat, trace: Trace, throws: Throws)
    ensures Remaining([], b, filters, d, trace, throws) == Enumerate(b, filters, d, trace, throws)
  {
  }

  /** Sections that have not started are enumerated from scratch. */
  lemma {:induction false} RemainingUnstarted(children: seq<Tracker>, b: Body, i: nat, filters: seq<string>, d: nat,
          trace: Trace, throws: Throws, again: bool)
    requires b.Subs? && Tidy(children, b, filters)
    requires forall j :: i <= j < |children| ==> children[j].state == NotStarted
    ensures RemainingSections(children, b, i, filters, d, trace, throws, again)
         == EnumerateSections(b, i, filters, d, trace, throws, again)
    decreases |b.sections| - i
  {
    if i < |b.sections| && i < |children| {
      var s := b.sections[i];
      RemainingFresh(s.body, NextFilters(filters), d + 1, trace + [Enter(s.id)], throws);
      if IsComplete(children[i]) {
        RemainingUnstarted(children, b, i + 1, filters, d, trace, throws, again);
      } else {
        var r := RemainingOf(children[i], s, filters, d, trace, throws);
        RemainingUnstarted(children, b, i + 1, filters, d, trace, throws, r.failed);
      }
    }
  }

  /** Complete sections have nothing left. */
  lemma {:induction false} SkipComplete(children: seq<Tracker>, b: Body, i: nat, n: nat, filters: seq<string>, d: nat,
          trace: Trace, throws: Throws, again: bool)
    requires b.Subs? && i <= n <= |children| <= |b.sections|
    requires forall j :: i <= j < n ==> IsComplete(children[j])
    ensures RemainingSections(children, b, i, filters, d, trace, throws, again)
         == RemainingSections(children, b, n, filters, d, trace, throws, again)
    decreases n - i
  {
    if i < n {
      SkipComplete(children, b, i + 1, n, filters, d, trace, throws, again);
    }
  }

  /** `again` matters only when no section is admitted any more. */
  lemma {:induction false} AgainMatters(b: Body, i: nat, filters: seq<string>, d: nat, trace: Trace, throws: Throws)
    requires b.Subs?
    ensures (forall j :: i <= j < |b.sections| ==> !Admits(NextFilters(filters), b.sections[j].id.name)) ==>
              EnumerateSections(b, i, filters, d, trace, throws, false) == []
    ensures (exists j :: i <= j < |b.sections| && Admits(NextFilters(filters), b.sections[j].id.name)) ==>
              EnumerateSections(b, i, filters, d, trace, throws, false)
                  == EnumerateSections(b, i, filters, d, trace, throws, true)
    decreases |b.sections| - i
  {
    if i < |b.sections| {
      AgainMatters(b, i + 1, filters, d, trace, throws);
    }
  }

  /** What one cycle must have done to a tracker with the cycles `before` left: `done` is the tracker
      after the common part of its close, `after` what it then has left. */
  ghost predicate Stepped(before: seq<Cycle>, out: Outcome, done: Tracker, after: seq<Cycle>)
  {
    && Closable(out.node.state)
    && before != []
    && before[0] == Cycle(out.trace, out.thrown)
    && done.state != NotStarted && done.state != Failed
    && (out.thrown ==> !Finished(done.state))
    && (Finished(done.state) ==> |before| == 1)
    && (!Finished(done.state) ==> after == before[1..])
  }

  /** `r` is what running the body `b` did to the opened tracker `t`. */
  ghost predicate BodyStepped(t: Tracker, r: Outcome, b: Body, filters: seq<string>, d: nat, trace: Trace,
          throws: Throws)
  {
    var done := BaseClose(CloseInner(r.node, b, filters));
    && Stepped(Remaining(t.children, b, filters, d, trace, throws), r, done,
        Remaining(done.children, b, filters, d, trace, throws))
    && (t.kind.Generator? ==> !ShouldWait(done.children, filters))
  }

  /** `r` is what running the section `s` did to its tracker `c`. */
  ghost predicate SectionStepped(c: Tracker, r: Outcome, s: Sec, filters: seq<string>, d: nat, trace: Trace,
          throws: Throws)
  {
    var left := RemainingOf(c, s, filters, d, trace, throws);
    && left.list != []
    && left.list[0] == Cycle(r.trace, r.thrown)
    && (r.node.state == Failed ==> r.thrown)
    && (IsComplete(r.node) ==> |left.list| == 1)
    && (IsComplete(r.node) ==> left.failed == (r.node.state == Failed))
    && (IsComplete(r.node) ==> left.failed == r.thrown)
    && (!IsComplete(r.node) ==>
        RemainingOf(r.node, s, filters, d, trace, throws) == Cycles(left.list[1..], left.failed))
  }

  /** In the cycle that `r` is the outcome of, a generator of the body waits, and nothing inside throws. */
  ghost predicate Blocks(t: Tracker, r: Outcome, b: Body, filters: seq<string>, trace: Trace)
  {
    !r.thrown && StuckAt(b, filters, t.kind.Generator?, |trace|, r.trace)
  }

  lemma {:induction false} RunExtends(t: Tracker, b: Body, filters: seq<string>, d: nat, trace: Trace, throws: Throws)
    ensures trace <= RunBody(t, b, filters, d, trace, throws).trace
    decreases b, 1, 0
  {
    match b
    case Gen(id, size, rest) =>
      var g := if t.children == [] then FreshGenerator(id, size) else t.children[0];
      var index := if g.kind.Generator? then g.kind.index else 0;
      RunExtends(g.(state := Executing), rest, filters, d, trace + [Value(id, index)], throws);
    case Subs(ss) => RunSectionsExtends(t, b, 0, filters, d, trace, throws);
  }

  lemma {:induction false} RunSectionsExtends(t: Tracker, b: Body, i: nat, filters: seq<string>, d: nat, trace: Trace,
          throws: Throws)
    requires b.Subs? && i <= |t.children|
    ensures trace <= RunSections(t, b, i, filters, d, trace, throws).trace
    decreases b, 0, |b.sections| - i
  {
    if i < |b.sections| {
      var c := ChildAt(t, b, i, filters);
      if IsComplete(c) {
        RunSectionsExtends(t.(children := Put(t.children, i, c)), b, i + 1, filters, d, trace, throws);
      } else {
        var s := b.sections[i];
        RunExtends(c.(state := Executing), s.body, NextFilters(filters), d + 1, trace + [Enter(s.id)], throws);
      }
    }
  }

  lemma SectionExtends(c: Tracker, s: Sec, own: seq<string>, d: nat, trace: Trace, throws: Throws)
    ensures var t := RunSection(c, s, own, d, trace, throws).trace;
      |trace| < |t| && t[|trace|] == Enter(s.id)
  {
    RunExtends(c.(state := Executing), s.body, own, d, trace + [Enter(s.id)], throws);
  }

  /** A trace that goes into a section ends at a stuck generator of the body if it does so in that section. */
  lemma StuckInside(b: Body, i: nat, filters: seq<string>, under: bool, n: nat, t: Trace)
    requires b.Subs? && i < |b.sections| && forall j, k :: 0 <= j < k < |b.sections| ==>
        b.sections[j].id != b.sections[k].id
    requires n < |t| && t[n] == Enter(b.sections[i].id) && Admits(NextFilters(filters), b.sections[i].id.name)
    ensures StuckAt(b, filters, under, n, t) <==> StuckAt(b.sections[i].body, NextFilters(filters), false, n + 1, t)
  {
    hide Admits, NextFilters;
  }

  /** A cycle does the first of the cycles left, even if a generator then waits. */
  lemma {:induction false} HeadBody(t: Tracker, b: Body, filters: seq<string>, d: nat, trace: Trace, throws: Throws)
    requires t.state == Executing && Tidy(t.children, b, filters) && WellFormed(b, t.id)
    ensures var r := RunBody(t, b, filters, d, trace, throws);
      var left := Remaining(t.children, b, filters, d, trace, throws);
      left != [] && left[0] == Cycle(r.trace, r.thrown)
    decreases b, 1, 0
  {
    match b
    case Gen(id, size, rest) =>
      var g := if t.children == [] then FreshGenerator(id, size) else t.children[0];
      HeadBody(g.(state := Executing), rest, filters, d, trace + [Value(id, g.kind.index)], throws);
      GeneratorLeft(t.children, b, filters, d, trace, throws);
    case Subs(ss) => HeadSections(t, b, 0, filters, d, trace, throws);
  }

  lemma {:induction false} HeadSections(t: Tracker, b: Body, i: nat, filters: seq<string>, d: nat, trace: Trace,
          throws: Throws)
    requires b.Subs? && i <= |t.children| && i <= |b.sections|
    requires t.state == Executing && Tidy(t.children, b, filters) && WellFormed(b, t.id)
    requires forall j :: 0 <= j < i ==> IsComplete(t.children[j])
    ensures var r := RunSections(t, b, i, filters, d, trace, throws);
      var left := Remaining(t.children, b, filters, d, trace, throws);
      left != [] && left[0] == Cycle(r.trace, r.thrown)
    decreases b, 0, |b.sections| - i
  {
    hide Remaining, RunSection, RemainingOf, EnumerateSections;
    if i == |b.sections| {
      NothingLeft(t.children, b, filters, d, trace, throws);
    } else {
      var c := ChildAt(t, b, i, filters);
      RemainingPut(t.children, b, i, filters, d, trace, throws);
      if IsComplete(c) {
        HeadSections(t.(children := Put(t.children, i, c)), b, i + 1, filters, d, trace, throws);
      } else {
        HeadSection(c, b.sections[i], filters, d, trace, throws);
        RemainingAt(Put(t.children, i, c), b, i, filters, d, trace, throws);
      }
    }
  }

  lemma NothingLeft(children: seq<Tracker>, b: Body, filters: seq<string>, d: nat, trace: Trace, throws: Throws)
    requires b.Subs? && |children| == |b.sections| && AllComplete(children)
    ensures Remaining(children, b, filters, d, trace, throws) == [Cycle(trace, false)]
  {
    SkipComplete(children, b, 0, |children|, filters, d, trace, throws, true);
  }

  lemma {:induction false} HeadSection(c: Tracker, s: Sec, filters: seq<string>, d: nat, trace: Trace, throws: Throws)
    requires c.kind == Section(NextFilters(filters)) && c.id == s.id
    requires Tidy(c.children, s.body, NextFilters(filters)) && WellFormed(s.body, s.id)
    ensures var r := RunSection(c, s, NextFilters(filters), d + 1, trace, throws);
      var left := RemainingOf(c, s, filters, d, trace, throws).list;
      left != [] && left[0] == Cycle(r.trace, r.thrown)
    decreases s.body, 2, 0
  {
    hide Remaining, RunBody, Tidy;
    HeadBody(c.(state := Executing), s.body, NextFilters(filters), d + 1, trace + [Enter(s.id)], throws);
  }

  lemma {:induction false} StepSection(c: Tracker, s: Sec, filters: seq<string>, d: nat, trace: Trace, throws: Throws)
    requires c.kind == Section(NextFilters(filters)) && c.id == s.id && Admits(NextFilters(filters), c.id.name)
    requires Tidy(c.children, s.body, NextFilters(filters))
    requires WellFormed(s.body, s.id)
    requires !Blocks(c, RunSection(c, s, NextFilters(filters), d + 1, trace, throws), s.body, NextFilters(filters),
        trace + [Enter(s.id)])
    ensures SectionStepped(c, RunSection(c, s, NextFilters(filters), d + 1, trace, throws), s, filters, d, trace,
        throws)
    decreases s.body, 2, 0
  {
    var own := NextFilters(filters);
    var inner := trace + [Enter(s.id)];
    HeadBody(c.(state := Executing), s.body, own, d + 1, inner, throws);
    var whole := Remaining(c.children, s.body, own, d + 1, inner, throws);
    if !whole[0].thrown && throws(d + 1, whole[0].trace) {
      assert Cut(d + 1, whole, throws) == Cycles([Cycle(whole[0].trace, true)], true);
    } else {
      StepBody(c.(state := Executing), s.body, own, d + 1, inner, throws);
      TidyBody(c.(state := Executing), s.body, own, d + 1, inner, throws);
      assert Cut(d + 1, whole, throws).list == [whole[0]] + Cut(d + 1, whole[1..], throws).list;
      assert |whole| == 1 ==> whole[1..] == [];
    }
  }

  lemma {:induction false} StepBody(t: Tracker, b: Body, filters: seq<string>, d: nat, trace: Trace, throws: Throws)
    requires t.state == Executing && Tidy(t.children, b, filters) && WellFormed(b, t.id)
    requires !Blocks(t, RunBody(t, b, filters, d, trace, throws), b, filters, trace)
    ensures BodyStepped(t, RunBody(t, b, filters, d, trace, throws), b, filters, d, trace, throws)
    decreases b, 1, 0
  {
    match b
    case Gen(id, size, rest) =>
      var g := if t.children == [] then FreshGenerator(id, size) else t.children[0];
      var inner := trace + [Value(id, g.kind.index)];
      RunExtends(g.(state := Executing), rest, filters, d, inner, throws);
      StepBody(g.(state := Executing), rest, filters, d, inner, throws);
      TidyBody(g.(state := Executing), rest, filters, d, inner, throws);
      AfterGenerator(t, b, g, RunBody(g.(state := Executing), rest, filters, d, inner, throws), filters, d, trace,
          throws);
    case Subs(ss) =>
      StepSections(t, b, 0, filters, d, trace, throws);
  }

  lemma {:induction false} StepSections(t: Tracker, b: Body, i: nat, filters: seq<string>, d: nat, trace: Trace,
          throws: Throws)
    requires b.Subs? && i <= |t.children| && i <= |b.sections|
    requires t.state == Executing && Tidy(t.children, b, filters) && WellFormed(b, t.id)
    requires forall j :: 0 <= j < i ==> IsComplete(t.children[j])
    requires !Blocks(t, RunSections(t, b, i, filters, d, trace, throws), b, filters, trace)
    ensures BodyStepped(t, RunSections(t, b, i, filters, d, trace, throws), b, filters, d, trace, throws)
    decreases b, 0, |b.sections| - i
  {
    hide Remaining, RunSection, CloseInner, BodyStepped;
    if i == |b.sections| {
      NoSectionRuns(t, b, filters, d, trace, throws);
    } else {
      var c := ChildAt(t, b, i, filters);
      if IsComplete(c) {
        var t' := t.(children := Put(t.children, i, c));
        RemainingPut(t.children, b, i, filters, d, trace, throws);
        StepSections(t', b, i + 1, filters, d, trace, throws);
        SameStep(t, t', RunSections(t', b, i + 1, filters, d, trace, throws), b, filters, d, trace, throws);
      } else {
        SectionExtends(c, b.sections[i], NextFilters(filters), d + 1, trace, throws);
        StuckInside(b, i, filters, t.kind.Generator?, |trace|,
            RunSection(c, b.sections[i], NextFilters(filters), d + 1, trace, throws).trace);
        StepSection(c, b.sections[i], filters, d, trace, throws);
        TidySection(c, b.sections[i], filters, d + 1, trace, throws);
        var r := RunSection(c, b.sections[i], NextFilters(filters), d + 1, trace, throws);
        AfterSection(t, b, i, r, filters, d, trace, throws);
      }
    }
  }

  lemma SameStep(t: Tracker, t': Tracker, r: Outcome, b: Body, filters: seq<string>, d: nat, trace: Trace,
          throws: Throws)
    requires BodyStepped(t', r, b, filters, d, trace, throws)
    requires t'.kind == t.kind
    requires Remaining(t'.children, b, filters, d, trace, throws) == Remaining(t.children, b, filters, d, trace, throws)
    ensures BodyStepped(t, r, b, filters, d, trace, throws)
  {
  }

  /** The case of StepBody in which the body starts with a generator, with tracker `g`, and `r` is what
      running the rest did to it. */
  lemma AfterGenerator(t: Tracker, b: Body, g: Tracker, r: Outcome, filters: seq<string>, d: nat, trace: Trace,
          throws: Throws)
    requires b.Gen? && b.size > 0
    requires t.state == Executing && Tidy(t.children, b, filters)
    requires g == if t.children == [] then FreshGenerator(b.id, b.size) else t.children[0]
    requires BodyStepped(g.(state := Executing), r, b.rest, filters, d, trace + [Value(b.id, g.kind.index)], throws)
    requires BodyTidied(g.(state := Executing), r.node, b.rest, filters)
    ensures BodyStepped(t, r.(node := t.(state := ExecutingChildren, children := Put(t.children, 0, r.node))), b,
        filters, d, trace, throws)
  {
    hide Remaining, EnumerateValues, Enumerate;
    var index := g.kind.index;
    var inner := trace + [Value(b.id, index)];
    var done := BaseClose(CloseInner(r.node, b.rest, filters));
    var node := t.(state := ExecutingChildren, children := Put(t.children, 0, r.node));
    var g' := FinishGenerator(done, filters);
    var closed := CloseInner(node, b, filters);
    CloseInnerGenerator(t.(state := ExecutingChildren), b, r.node, filters);
    var before := Remaining(g.children, b.rest, filters, d, inner, throws);
    var left := Remaining(done.children, b.rest, filters, d, inner, throws);
    var later := EnumerateValues(b, index + 1, filters, d, trace, throws);
    GeneratorLeft(t.children, b, filters, d, trace, throws);
    var rest := if Finished(done.state) then [] else left;
    AdvanceGenerator(b, done, filters, rest, d, trace, throws);
    SteppedGenerator(before, left, later, r, done, g', closed, Remaining([g'], b, filters, d, trace, throws),
        r.(node := node));
  }

  lemma SteppedGenerator(before: seq<Cycle>, left: seq<Cycle>, later: seq<Cycle>, r: Outcome, done: Tracker, g: Tracker,
          closed: Tracker, now: seq<Cycle>, out: Outcome)
    requires Stepped(before, r, done, left)
    requires closed.state == ExecutingChildren && closed.children == [g]
    requires out == r.(node := out.node) && out.node.state == ExecutingChildren
    requires g.state != NotStarted
    requires IsComplete(g) ==> Finished(done.state) && later == []
    requires !IsComplete(g) ==> now == (if Finished(done.state) then [] else left) + later
    ensures Stepped(before + later, out, BaseClose(closed), now)
    ensures BaseClose(closed) == closed.(state := BaseClose(closed).state)
    ensures Finished(BaseClose(closed).state) <==> IsComplete(g)
  {
    assert closed.children[0] == g;
    assert (before + later)[1..] == before[1..] + later;
    assert before[1..] == if Finished(done.state) then [] else left;
  }

  /** Advancing a generator tracker leaves what was left without the cycle just done (`inner` is what
      that leaves of the rest of the body for the current value). */
  lemma AdvanceGenerator(b: Body, done: Tracker, filters: seq<string>, inner: seq<Cycle>, d: nat, trace: Trace,
          throws: Throws)
    requires b.Gen? && done.kind.Generator? && done.kind.size == b.size && done.kind.index < b.size && done.id == b.id
    requires !ShouldWait(done.children, filters) && done.state != Failed && done.state != NotStarted
    requires Finished(done.state) ==> inner == []
    requires !Finished(done.state) ==>
               && Tidy(done.children, b.rest, filters)
               && inner == Remaining(done.children, b.rest, filters, d, trace + [Value(b.id, done.kind.index)], throws)
    ensures var g' := FinishGenerator(done, filters);
      var later := EnumerateValues(b, done.kind.index + 1, filters, d, trace, throws);
      && g'.state != NotStarted
      && (IsComplete(g') ==> Finished(done.state) && later == [])
      && (!IsComplete(g') ==> Tidy([g'], b, filters) && Remaining([g'], b, filters, d, trace, throws) == inner + later)
  {
    var g' := FinishGenerator(done, filters);
    RemainingFresh(b.rest, filters, d, trace + [Value(b.id, done.kind.index + 1)], throws);
    if !IsComplete(g') {
      GeneratorLeft([g'], b, filters, d, trace, throws);
    }
  }

  /** What is left of a generator: the rest of the body for the current value, then the later values. */
  lemma GeneratorLeft(children: seq<Tracker>, b: Body, filters: seq<string>, d: nat, trace: Trace, throws: Throws)
    requires b.Gen? && b.size > 0 && Tidy(children, b, filters)
    ensures var g := if children == [] then FreshGenerator(b.id, b.size) else children[0];
      var later := EnumerateValues(b, g.kind.index + 1, filters, d, trace, throws);
      && Remaining(children, b, filters, d, trace, throws)
         == Remaining(g.children, b.rest, filters, d, trace + [Value(b.id, g.kind.index)], throws) + later
      && (g.kind.index + 1 == b.size ==> later == [])
      && (g.kind.index + 1 < b.size ==>
            later == Remaining([], b.rest, filters, d, trace + [Value(b.id, g.kind.index + 1)], throws)
                     + EnumerateValues(b, g.kind.index + 2, filters, d, trace, throws))
  {
    var g := if children == [] then FreshGenerator(b.id, b.size) else children[0];
    RemainingFresh(b.rest, filters, d, trace + [Value(b.id, g.kind.index)], throws);
    RemainingFresh(b.rest, filters, d, trace + [Value(b.id, g.kind.index + 1)], throws);
    if children == [] {
      assert Enumerate(b, filters, d, trace, throws) == EnumerateValues(b, 0, filters, d, trace, throws);
    } else {
      assert g.kind.Generator?;
    }
  }

  /** The case of StepSections in which no section is left to run. */
  lemma NoSectionRuns(t: Tracker, b: Body, filters: seq<string>, d: nat, trace: Trace, throws: Throws)
    requires b.Subs? && |t.children| == |b.sections|
    requires t.state == Executing && Tidy(t.children, b, filters) && AllComplete(t.children)
    requires !(t.kind.Generator? && Stuck(b.sections, filters))
    ensures BodyStepped(t, Outcome(t, trace, false), b, filters, d, trace, throws)
  {
    NothingLeft(t.children, b, filters, d, trace, throws);
    forall i | 0 <= i < |b.sections| && t.children[i].state == NotStarted
      ensures !Admits(NextFilters(filters), b.sections[i].id.name)
    {
      assert IsComplete(t.children[i]);
    }
    assert forall i :: 0 <= i < |b.sections| ==> t.children[i].id == b.sections[i].id;
  }

  /** What is left when the sections before `n` are complete and no later one has started. */
  lemma RemainingPast(children: seq<Tracker>, b: Body, n: nat, filters: seq<string>, d: nat, trace: Trace,
          throws: Throws)
    requires b.Subs? && n <= |children| && Tidy(children, b, filters)
    requires forall j :: 0 <= j < n ==> IsComplete(children[j])
    requires forall j :: n <= j < |children| ==> children[j].state == NotStarted
    ensures Remaining(children, b, filters, d, trace, throws)
        == EnumerateSections(b, n, filters, d, trace, throws, true)
  {
    SkipComplete(children, b, 0, n, filters, d, trace, throws, true);
    RemainingUnstarted(children, b, n, filters, d, trace, throws, true);
  }

  /** What is left when the first incomplete section is the one at `i`. */
  lemma RemainingAt(children: seq<Tracker>, b: Body, i: nat, filters: seq<string>, d: nat, trace: Trace, throws: Throws)
    requires b.Subs? && i < |children| && Tidy(children, b, filters)
    requires forall j :: 0 <= j < i ==> IsComplete(children[j])
    requires !IsComplete(children[i])
    ensures var left := RemainingOf(children[i], b.sections[i], filters, d, trace, throws);
      Remaining(children, b, filters, d, trace, throws)
      == left.list + EnumerateSections(b, i + 1, filters, d, trace, throws, left.failed)
  {
    var left := RemainingOf(children[i], b.sections[i], filters, d, trace, throws);
    SkipComplete(children, b, 0, i, filters, d, trace, throws, true);
    RemainingUnstarted(children, b, i + 1, filters, d, trace, throws, left.failed);
  }

  /** Registering the next section changes nothing. */
  lemma RemainingPut(children: seq<Tracker>, b: Body, i: nat, filters: seq<string>, d: nat, trace: Trace,
          throws: Throws)
    requires b.Subs? && i <= |children| && i < |b.sections|
    requires Tidy(children, b, filters)
    requires forall j :: 0 <= j < i ==> IsComplete(children[j])
    ensures var c := if i < |children| then children[i] else FreshSection(b.sections[i].id, NextFilters(filters));
      && Tidy(Put(children, i, c), b, filters)
      && Remaining(Put(children, i, c), b, filters, d, trace, throws)
          == Remaining(children, b, filters, d, trace, throws)
  {
    TidyPut(children, b, i, filters);
    if i == |children| {
      var put := Put(children, i, FreshSection(b.sections[i].id, NextFilters(filters)));
      RemainingPast(children, b, i, filters, d, trace, throws);
      RemainingPast(put, b, i, filters, d, trace, throws);
    } else {
      PutSame(children, i);
    }
  }

  /** The case of StepSections in which the section at `i` is the one that runs, with outcome `r`. */
  lemma AfterSection(t: Tracker, b: Body, i: nat, r: Outcome, filters: seq<string>, d: nat, trace: Trace,
          throws: Throws)
    requires b.Subs? && i <= |t.children| && i < |b.sections|
    requires t.state == Executing && Tidy(t.children, b, filters)
    requires forall j :: 0 <= j < i ==> IsComplete(t.children[j])
    requires !IsComplete(ChildAt(t, b, i, filters))
    requires SectionStepped(ChildAt(t, b, i, filters), r, b.sections[i], filters, d, trace, throws)
    requires SectionTidied(ChildAt(t, b, i, filters), r.node, b.sections[i], filters)
    ensures BodyStepped(t, WithSection(t, b, i, r, filters), b, filters, d, trace, throws)
  {
    hide Remaining, RemainingSections, EnumerateSections, Tidy;
    var c := ChildAt(t, b, i, filters);
    var left := RemainingOf(c, b.sections[i], filters, d, trace, throws);
    var out := WithSection(t, b, i, r, filters);
    OutcomeOfSection(t, b, i, r, filters);
    var after := out.node.children;
    var rest := EnumerateSections(b, i + 1, filters, d, trace, throws, left.failed);
    var before := Remaining(t.children, b, filters, d, trace, throws);
    assert before == left.list + rest by {
      RemainingPut(t.children, b, i, filters, d, trace, throws);
      RemainingAt(Put(t.children, i, c), b, i, filters, d, trace, throws);
    }
    var done := BaseClose(out.node);
    if IsComplete(r.node) {
      RemainingPast(after, b, i + 1, filters, d, trace, throws);
      AgainMatters(b, i + 1, filters, d, trace, throws);
      LaterComplete(after, b, i, filters);
      SteppedPast(out, left, rest, EnumerateSections(b, i + 1, filters, d, trace, throws, true));
    } else {
      RemainingAt(after, b, i, filters, d, trace, throws);
      assert !IsComplete(after[i]);
      SteppedAt(out, left, rest);
    }
    assert Stepped(before, out, done, Remaining(done.children, b, filters, d, trace, throws));
    assert done.children == after;
    assert after[i].state != NotStarted;
  }

  lemma SteppedAt(out: Outcome, left: Cycles, rest: seq<Cycle>)
    requires left.list != [] && left.list[0] == Cycle(out.trace, out.thrown)
    requires out.node.state == ExecutingChildren && !AllComplete(out.node.children)
    ensures Stepped(left.list + rest, out, BaseClose(out.node), left.list[1..] + rest)
  {
  }

  lemma SteppedPast(out: Outcome, left: Cycles, rest: seq<Cycle>, again: seq<Cycle>)
    requires |left.list| == 1 && left.list[0] == Cycle(out.trace, out.thrown) && left.failed == out.thrown
    requires out.node.state == if left.failed then NeedsAnotherRun else ExecutingChildren
    requires left.failed ==> rest == again
    requires !left.failed ==> if AllComplete(out.node.children) then rest == [] else rest == again
    ensures Stepped(left.list + rest, out, BaseClose(out.node), again)
  {
    assert (left.list + rest)[1..] == rest;
  }

  /** Trackers that have not started are complete exactly when the filters keep their sections out. */
  lemma LaterComplete(after: seq<Tracker>, b: Body, i: nat, filters: seq<string>)
    requires b.Subs? && i < |after| && Tidy(after, b, filters)
    requires forall j :: 0 <= j <= i ==> IsComplete(after[j])
    requires forall j :: i < j < |after| ==> after[j].state == NotStarted
    ensures AllComplete(after) <==> forall j :: i < j < |after| ==> !Admits(NextFilters(filters), b.sections[j].id.name)
  {
    forall j | i < j < |after| ensures IsComplete(after[j]) <==> !Admits(NextFilters(filters), b.sections[j].id.name) {
      assert after[j].id == b.sections[j].id;
    }
  }
}
