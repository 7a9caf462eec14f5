/** A cycle in which a generator waits leaves the cycles that a tracker has left as they were. */
module TrackerWait {
  import opened TrackerTree
  import opened TestBody
  import opened TrackerCycle
  import opened TrackerTidy
  import opened TrackerProgress

  /** What a tracker with the cycles `before` left is after such a cycle: `done`, after the common part of its
      close, either waits itself or has the same cycles left below it. */
  ghost predicate Stayed(before: seq<Cycle>, done: Tracker, b: Body, filters: seq<string>, d: nat, trace: Trace,
          throws: Throws)
  {
    if done.kind.Generator? && ShouldWait(done.children, filters) then before == Enumerate(b, filters, d, trace, throws)
    else
      && done.state != NotStarted && !Finished(done.state)
      && Remaining(done.children, b, filters, d, trace, throws) == before
  }

  lemma {:induction false} StayBody(t: Tracker, b: Body, filters: seq<string>, d: nat, trace: Trace, throws: Throws)
    requires t.state == Executing && Tidy(t.children, b, filters) && WellFormed(b, t.id)
    requires Blocks(t, RunBody(t, b, filters, d, trace, throws), b, filters, trace)
    ensures var done := BaseClose(CloseInner(RunBody(t, b, filters, d, trace, throws).node, b, filters));
      Stayed(Remaining(t.children, b, filters, d, trace, throws), done, b, filters, d, trace, throws)
    decreases b, 1, 0
  {
    match b
    case Gen(id, size, rest) =>
      var g := if t.children == [] then FreshGenerator(id, size) else t.children[0];
      var inner := trace + [Value(id, g.kind.index)];
      RunExtends(g.(state := Executing), rest, filters, d, inner, throws);
      StayBody(g.(state := Executing), rest, filters, d, inner, throws);
      TidyBody(g.(state := Executing), rest, filters, d, inner, throws);
      StayGenerator(t, b, g, RunBody(g.(state := Executing), rest, filters, d, inner, throws).node, filters, d, trace,
          throws);
    case Subs(ss) =>
      StaySections(t, b, 0, filters, d, trace, throws);
  }

  /** The case of StayBody in which the body starts with a generator whose tracker `g` has become `node`. */
  lemma StayGenerator(t: Tracker, b: Body, g: Tracker, node: Tracker, filters: seq<string>, d: nat, trace: Trace,
          throws: Throws)
    requires b.Gen? && b.size > 0 && Tidy(t.children, b, filters)
    requires g == if t.children == [] then FreshGenerator(b.id, b.size) else t.children[0]
    requires BodyTidied(g.(state := Executing), node, b.rest, filters)
    requires var inner := trace + [Value(b.id, g.kind.index)];
      Stayed(Remaining(g.children, b.rest, filters, d, inner, throws), BaseClose(CloseInner(node, b.rest, filters)),
          b.rest, filters, d, inner, throws)
    ensures var r := t.(state := ExecutingChildren, children := Put(t.children, 0, node));
      Stayed(Remaining(t.children, b, filters, d, trace, throws), BaseClose(CloseInner(r, b, filters)), b, filters, d,
          trace, throws)
  {
    hide Enumerate, EnumerateValues;
    var done := BaseClose(CloseInner(node, b.rest, filters));
    var g' := FinishGenerator(done, filters);
    CloseInnerGenerator(t.(state := ExecutingChildren), b, node, filters);
    GeneratorLeft(t.children, b, filters, d, trace, throws);
    RemainingFresh(b.rest, filters, d, trace + [Value(b.id, g.kind.index)], throws);
    assert !IsComplete(g') && g'.state != NotStarted && g'.kind == g.kind;
    assert [g'][0] == g' && !AllComplete([g']) && SomeStarted([g']);
  }

  lemma {:induction false} StaySections(t: Tracker, b: Body, i: nat, filters: seq<string>, d: nat, trace: Trace,
          throws: Throws)
    requires b.Subs? && i <= |t.children| && i <= |b.sections|
    requires t.state == Executing && Tidy(t.children, b, filters) && WellFormed(b, t.id)
    requires forall j :: 0 <= j < i ==> IsComplete(t.children[j])
    requires Blocks(t, RunSections(t, b, i, filters, d, trace, throws), b, filters, trace)
    ensures var done := BaseClose(RunSections(t, b, i, filters, d, trace, throws).node);
      Stayed(Remaining(t.children, b, filters, d, trace, throws), done, b, filters, d, trace, throws)
    decreases b, 0, |b.sections| - i
  {
    hide Remaining, RunSection, CloseInner, Stayed, Stuck, NextFilters, RemainingOf;
    if i == |b.sections| {
      NothingRan(t, b, filters, d, trace, throws);
    } else {
      var c := ChildAt(t, b, i, filters);
      RemainingPut(t.children, b, i, filters, d, trace, throws);
      if IsComplete(c) {
        StaySections(t.(children := Put(t.children, i, c)), b, i + 1, filters, d, trace, throws);
      } else {
        StayEntered(t, b, i, filters, d, trace, throws);
      }
    }
  }

  /** The case of StaySections in which the section at `i` runs. */
  lemma {:induction false} StayEntered(t: Tracker, b: Body, i: nat, filters: seq<string>, d: nat, trace: Trace,
          throws: Throws)
    requires b.Subs? && i <= |t.children| && i < |b.sections|
    requires t.state == Executing && Tidy(t.children, b, filters) && WellFormed(b, t.id)
    requires forall j :: 0 <= j < i ==> IsComplete(t.children[j])
    requires !IsComplete(ChildAt(t, b, i, filters))
    requires Blocks(t, RunSections(t, b, i, filters, d, trace, throws), b, filters, trace)
    ensures var done := BaseClose(RunSections(t, b, i, filters, d, trace, throws).node);
      Stayed(Remaining(t.children, b, filters, d, trace, throws), done, b, filters, d, trace, throws)
    decreases b, 0, |b.sections| - i, 0
  {
    hide Remaining, RunSection, CloseInner, Stayed;
    var c := ChildAt(t, b, i, filters);
    var s := b.sections[i];
    var r := RunSection(c, s, NextFilters(filters), d + 1, trace, throws);
    SectionExtends(c, s, NextFilters(filters), d + 1, trace, throws);
    StuckInside(b, i, filters, t.kind.Generator?, |trace|, r.trace);
    StaySection(c, s, filters, d, trace, throws);
    TidySection(c, s, filters, d + 1, trace, throws);
    SectionRan(t, b, i, r, filters, d, trace, throws);
  }

  lemma {:induction false} StaySection(c: Tracker, s: Sec, filters: seq<string>, d: nat, trace: Trace, throws: Throws)
    requires c.kind == Section(NextFilters(filters)) && c.id == s.id && Admits(NextFilters(filters), c.id.name)
    requires Tidy(c.children, s.body, NextFilters(filters)) && WellFormed(s.body, s.id)
    requires Blocks(c, RunSection(c, s, NextFilters(filters), d + 1, trace, throws), s.body, NextFilters(filters),
        trace + [Enter(s.id)])
    ensures var r := RunSection(c, s, NextFilters(filters), d + 1, trace, throws);
      && !IsComplete(r.node)
      && RemainingOf(r.node, s, filters, d, trace, throws) == RemainingOf(c, s, filters, d, trace, throws)
    decreases s.body, 2, 0
  {
    var own := NextFilters(filters);
    StayBody(c.(state := Executing), s.body, own, d + 1, trace + [Enter(s.id)], throws);
    TidyBody(c.(state := Executing), s.body, own, d + 1, trace + [Enter(s.id)], throws);
  }

  /** No section was left to run, so the generator above is the stuck one. */
  lemma NothingRan(t: Tracker, b: Body, filters: seq<string>, d: nat, trace: Trace, throws: Throws)
    requires b.Subs? && |t.children| == |b.sections|
    requires t.state == Executing && Tidy(t.children, b, filters) && AllComplete(t.children)
    requires t.kind.Generator? && Stuck(b.sections, filters)
    ensures Stayed(Remaining(t.children, b, filters, d, trace, throws), BaseClose(t), b, filters, d, trace, throws)
  {
    var ss := b.sections;
    NothingLeft(t.children, b, filters, d, trace, throws);
    NoneAdmitted(b, 0, filters, d, trace, throws, true);
    var k :| 0 <= k < |ss| && Trim(ss[k].id.name) in filters;
    forall j | 0 <= j < |t.children| ensures t.children[j].state == NotStarted {
      assert t.children[j].id == ss[j].id;
    }
    assert t.children[k].kind.Section? && Trim(t.children[k].id.name) in filters;
  }

  lemma {:induction false} NoneAdmitted(b: Body, i: nat, filters: seq<string>, d: nat, trace: Trace, throws: Throws,
          again: bool)
    requires b.Subs? && forall j :: i <= j < |b.sections| ==> !Admits(NextFilters(filters), b.sections[j].id.name)
    ensures EnumerateSections(b, i, filters, d, trace, throws, again) == if again then [Cycle(trace, false)] else []
    decreases |b.sections| - i
  {
    if i < |b.sections| {
      NoneAdmitted(b, i + 1, filters, d, trace, throws, again);
    }
  }

  /** The section at `i` ran and has the same cycles left as before. */
  lemma SectionRan(t: Tracker, b: Body, i: nat, r: Outcome, filters: seq<string>, d: nat, trace: Trace, throws: Throws)
    requires b.Subs? && i <= |t.children| && i < |b.sections|
    requires t.state == Executing && Tidy(t.children, b, filters)
    requires forall j :: 0 <= j < i ==> IsComplete(t.children[j])
    requires var c := ChildAt(t, b, i, filters);
      && !IsComplete(c) && !IsComplete(r.node)
      && RemainingOf(r.node, b.sections[i], filters, d, trace, throws)
          == RemainingOf(c, b.sections[i], filters, d, trace, throws)
    requires SectionTidied(ChildAt(t, b, i, filters), r.node, b.sections[i], filters)
    ensures var done := BaseClose(WithSection(t, b, i, r, filters).node);
      Stayed(Remaining(t.children, b, filters, d, trace, throws), done, b, filters, d, trace, throws)
  {
    hide Remaining, EnumerateSections, RemainingOf, Tidy;
    var c := ChildAt(t, b, i, filters);
    var out := WithSection(t, b, i, r, filters).node;
    OutcomeOfSection(t, b, i, r, filters);
    RemainingPut(t.children, b, i, filters, d, trace, throws);
    RemainingAt(Put(t.children, i, c), b, i, filters, d, trace, throws);
    RemainingAt(out.children, b, i, filters, d, trace, throws);
    assert out.children[i] == r.node && r.node.state != NotStarted;
  }
}
