/** Every cycle leaves the trackers below a tracker tidy, stuck or not. */
module TrackerTidy {
  import opened TrackerTree
  import opened TestBody
  import opened TrackerCycle

  lemma TidyPut(children: seq<Tracker>, b: Body, i: nat, filters: seq<string>)
    requires b.Subs? && i <= |children| && i < |b.sections| && Tidy(children, b, filters)
    ensures var c := if i < |children| then children[i] else FreshSection(b.sections[i].id, NextFilters(filters));
      Tidy(Put(children, i, c), b, filters)
  {
    if i < |children| {
      PutSame(children, i);
    }
  }

  /** Registering appends not yet started trackers for the sections that have none. */
  lemma {:induction false} RegisterFills(t: Tracker, b: Body, i: nat, filters: seq<string>)
    requires b.Subs? && i <= |t.children| <= |b.sections|
    ensures var r := Register(t, b, i, filters);
      && r == t.(children := r.children)
      && |r.children| == |b.sections|
      && (forall j :: 0 <= j < |t.children| ==> r.children[j] == t.children[j])
      && forall j :: |t.children| <= j < |b.sections| ==>
          r.children[j] == FreshSection(b.sections[j].id, NextFilters(filters))
    decreases |b.sections| - i
  {
    if i < |b.sections| {
      var t' := t.(children := Put(t.children, i, ChildAt(t, b, i, filters)));
      RegisterFills(t', b, i + 1, filters);
    }
  }

  /** The tracker `t` after its section at `i` ran with outcome `r`. */
  function WithSection(t: Tracker, b: Body, i: nat, r: Outcome, filters: seq<string>): Outcome
    requires b.Subs? && i <= |t.children|
  {
    var t' := t.(children := Put(t.children, i, r.node),
        state := if r.node.state == Failed then NeedsAnotherRun else ExecutingChildren);
    Outcome(if r.thrown then t' else Register(t', b, i + 1, filters), r.trace, r.thrown)
  }

  /** What a section's tracker still is after the section was left. */
  ghost predicate SectionTidied(c: Tracker, r: Tracker, s: Sec, filters: seq<string>)
  {
    && r.id == c.id && r.kind == c.kind && r.state != NotStarted
    && (!IsComplete(r) ==> Tidy(r.children, s.body, NextFilters(filters)))
  }

  lemma OutcomeOfSection(t: Tracker, b: Body, i: nat, r: Outcome, filters: seq<string>)
    requires b.Subs? && i <= |t.children| && i < |b.sections|
    requires Tidy(t.children, b, filters)
    requires forall j :: 0 <= j < i ==> IsComplete(t.children[j])
    requires !IsComplete(ChildAt(t, b, i, filters))
    requires SectionTidied(ChildAt(t, b, i, filters), r.node, b.sections[i], filters)
    ensures var after := WithSection(t, b, i, r, filters).node.children;
      && WithSection(t, b, i, r, filters).node
         == t.(children := after, state := if r.node.state == Failed then NeedsAnotherRun else ExecutingChildren)
      && i < |after| && after[i] == r.node
      && (!r.thrown ==> |after| == |b.sections|)
      && (forall j :: 0 <= j < i ==> after[j] == t.children[j])
      && (forall j :: i < j < |after| ==> after[j].state == NotStarted)
      && Tidy(after, b, filters)
  {
    hide Register;
    var t' := t.(children := Put(t.children, i, r.node),
        state := if r.node.state == Failed then NeedsAnotherRun else ExecutingChildren);
    RegisterFills(t', b, i + 1, filters);
  }

  /** What is true of a tracker after the common part of its close. */
  ghost predicate BodyTidied(t: Tracker, node: Tracker, b: Body, filters: seq<string>)
  {
    var done := BaseClose(CloseInner(node, b, filters));
    && node.id == t.id && node.kind == t.kind && Closable(node.state)
    && done.id == t.id && done.kind == t.kind
    && done.state != NotStarted && done.state != Failed
    && (!Finished(done.state) ==> Tidy(done.children, b, filters))
  }

  lemma {:induction false} TidySection(c: Tracker, s: Sec, filters: seq<string>, d: nat, trace: Trace, throws: Throws)
    requires c.kind == Section(NextFilters(filters)) && c.id == s.id && Tidy(c.children, s.body, NextFilters(filters))
    requires WellFormed(s.body, s.id)
    ensures SectionTidied(c, RunSection(c, s, NextFilters(filters), d, trace, throws).node, s, filters)
    decreases s.body, 2, 0
  {
    TidyBody(c.(state := Executing), s.body, NextFilters(filters), d, trace + [Enter(s.id)], throws);
  }

  lemma {:induction false} TidyBody(t: Tracker, b: Body, filters: seq<string>, d: nat, trace: Trace, throws: Throws)
    requires t.state == Executing && Tidy(t.children, b, filters) && WellFormed(b, t.id)
    ensures BodyTidied(t, RunBody(t, b, filters, d, trace, throws).node, b, filters)
    decreases b, 1, 0
  {
    match b
    case Gen(id, size, rest) =>
      var g := if t.children == [] then FreshGenerator(id, size) else t.children[0];
      var inner := trace + [Value(id, g.kind.index)];
      TidyBody(g.(state := Executing), rest, filters, d, inner, throws);
      TidyGenerator(t, b, g, RunBody(g.(state := Executing), rest, filters, d, inner, throws).node, filters);
    case Subs(ss) =>
      TidySections(t, b, 0, filters, d, trace, throws);
  }

  /** Closing what is inside a tracker whose one child has become the generator tracker `node`. */
  lemma CloseInnerGenerator(t: Tracker, b: Body, node: Tracker, filters: seq<string>)
    requires b.Gen? && |t.children| <= 1 && node.kind.Generator?
    ensures CloseInner(t.(children := Put(t.children, 0, node)), b, filters)
         == t.(children := [FinishGenerator(BaseClose(CloseInner(node, b.rest, filters)), filters)])
  {
    var inner := CloseInner(node, b.rest, filters);
    assert inner.kind == node.kind;
    PutOnly(t.children, node, CloseOne(inner, filters));
  }

  /** The case of TidyBody in which the body starts with a generator whose tracker `g` has become `node`. */
  lemma TidyGenerator(t: Tracker, b: Body, g: Tracker, node: Tracker, filters: seq<string>)
    requires b.Gen? && b.size > 0 && Tidy(t.children, b, filters)
    requires g == if t.children == [] then FreshGenerator(b.id, b.size) else t.children[0]
    requires BodyTidied(g.(state := Executing), node, b.rest, filters)
    ensures BodyTidied(t, t.(state := ExecutingChildren, children := Put(t.children, 0, node)), b, filters)
  {
    var done := BaseClose(CloseInner(node, b.rest, filters));
    var g' := FinishGenerator(done, filters);
    var out := t.(state := ExecutingChildren, children := Put(t.children, 0, node));
    CloseInnerGenerator(t.(state := ExecutingChildren), b, node, filters);
    if IsComplete(g') {
      assert AllComplete([g']);
    }
  }

  lemma {:induction false} TidySections(t: Tracker, b: Body, i: nat, filters: seq<string>, d: nat, trace: Trace,
          throws: Throws)
    requires b.Subs? && i <= |t.children| && i <= |b.sections|
    requires t.state == Executing && Tidy(t.children, b, filters) && WellFormed(b, t.id)
    requires forall j :: 0 <= j < i ==> IsComplete(t.children[j])
    ensures BodyTidied(t, RunSections(t, b, i, filters, d, trace, throws).node, b, filters)
    decreases b, 0, |b.sections| - i
  {
    if i < |b.sections| {
      var c := ChildAt(t, b, i, filters);
      if IsComplete(c) {
        TidyPut(t.children, b, i, filters);
        TidySections(t.(children := Put(t.children, i, c)), b, i + 1, filters, d, trace, throws);
      } else {
        TidySection(c, b.sections[i], filters, d + 1, trace, throws);
        OutcomeOfSection(t, b, i, RunSection(c, b.sections[i], NextFilters(filters), d + 1, trace, throws), filters);
      }
    }
  }
}
