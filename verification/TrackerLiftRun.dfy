/** The run context executing a body through its pointers does what TrackerCycle says. */
module TrackerLiftRun {
  import opened TrackerTree
  import opened TestBody
  import opened TrackerPaths
  import opened TrackerMachine
  import opened TrackerCycle
  import opened TrackerTidy
  import opened TrackerLift

  /** Once the cycle is over, the later sections are registered and none is entered. */
  lemma {:induction false} LiftRegister(r: Run, frame: Tracker, p: Path, t: Tracker, b: Body, i: nat,
          filters: seq<string>, d: nat, throws: Throws)
    requires Valid(r) && Focus(r.ctx, frame, p, t, filters) && r.ctx.current == p && r.ctx.completed
    requires b.Subs? && i <= |t.children| && WellFormed(b, t.id) && Tidy(t.children, b, filters)
    requires forall j :: i <= j < |t.children| ==> t.children[j].state == NotStarted
    ensures var (res, thrown) := ExecSections(r, b, i, d, throws);
      && !thrown && res == r.(ctx := r.ctx.(root := SetAt(frame, p, Register(t, b, i, filters).(kind := t.kind))))
      && Focus(res.ctx, frame, p, Register(t, b, i, filters), filters)
    decreases |b.sections| - i
  {
    RegisterKeeps(t, b, i, filters);
    if i < |b.sections| {
      var k := ChildAt(t, b, i, filters);
      var t1 := t.(children := Put(t.children, i, k));
      LiftAcquireSection(r.ctx, frame, p, t, b, i, filters);
      TidyPut(t.children, b, i, filters);
      LiftRegister(SectionStarted(r, b.sections[i].id).0, frame, p, t1, b, i + 1, filters, d, throws);
    }
  }

  /** Opening the only child `g` of the tracker `t1` in focus, a generator tracker, and reading it. */
  lemma LiftReadGenerator(c: Context, frame: Tracker, p: Path, t1: Tracker, g: Tracker, filters: seq<string>)
    requires Focus(c, frame, p, t1, filters) && t1.children == [g]
    requires g.kind.Generator? && g.kind.index < g.kind.size
    ensures IsPath(c.root, p + [0]) && At(c.root, p + [0]) == g
    ensures var begun := t1.(state := ExecutingChildren, children := [g.(state := Executing)]);
      var c' := c.(root := SetAt(frame, p, begun), current := p + [0]);
      && ReadGenerator(Open(c, p + [0]), p + [0]) == (c', g.kind.index)
      && Focus(c', frame, p, begun, filters)
  {
    LiftOpen(c, frame, p, t1, filters, 0);
    var begun := t1.(state := ExecutingChildren, children := [g.(state := Executing)]);
    PutOnly([], g, g.(state := Executing));
    SetChild(c.root, p, 0, g);
    SetChild(SetAt(frame, p, begun), p, 0, g);
  }

  lemma LiftAcquireGenerator(c: Context, frame: Tracker, p: Path, t: Tracker, b: Body, filters: seq<string>)
    requires Focus(c, frame, p, t, filters) && c.current == p
    requires b.Gen? && b.size > 0 && t.id != b.id && Tidy(t.children, b, filters)
    ensures var g := if t.children == [] then FreshGenerator(b.id, b.size) else t.children[0];
      var begun := t.(state := ExecutingChildren, children := [g.(state := Executing)]);
      var c' := c.(root := SetAt(frame, p, begun), current := p + [0]);
      && AcquireGenerator(c, b.id, b.size) == (c', g.kind.index)
      && Focus(c', frame, p, begun, filters)
  {
    if t.children == [] {
      var g := FreshGenerator(b.id, b.size);
      var t1 := t.(children := [g]);
      var c1 := c.(root := SetAt(c.root, p, t1));
      Refocus(c, frame, p, t, filters, t1, c1);
      PutOnly(t.children, g, g);
      LiftReadGenerator(c1, frame, p, t1, g, filters);
      assert CreateGenerator(c, b.id, b.size) == ReadGenerator(Open(c1, p + [0]), p + [0]);
    } else {
      PutSame(t.children, 0);
      LiftReadGenerator(c, frame, p, t, t.children[0], filters);
      assert FindGenerator(c, b.id) == (true, p + [0]);
    }
  }

  /** What executing a body must do, seen from the tracker in focus. */
  ghost predicate Lifted(res: (Run, bool), frame: Tracker, p: Path, at: Path, out: Outcome, filters: seq<string>)
  {
    && Focus(res.0.ctx, frame, p, out.node, filters)
    && res.0.ctx.current == at
    && res.0.trace == out.trace
    && res.1 == out.thrown
    && (res.1 <==> res.0.unfinished != [])
  }

  /** From a generator back to the tracker it is declared in. */
  lemma LiftedUp(c: Context, frame: Tracker, p: Path, begun: Tracker, filters: seq<string>, res: (Run, bool),
          rest: Path, out: Outcome)
    requires Focus(c, frame, p, begun, filters) && |begun.children| == 1 && IsPath(c.root, p + [0])
    requires Lifted(res, c.root, p + [0], (p + [0]) + rest, out, filters)
    ensures Lifted(res, frame, p, p + ([0] + rest), out.(node := begun.(children := [out.node])), filters)
  {
    FocusParent(c, frame, p, begun, filters, 0, out.node, res.0.ctx);
    assert begun.children[0 := out.node] == [out.node];
    assert (p + [0]) + rest == p + ([0] + rest);
  }

  /** Closing the section whose body has just run. */
  lemma LeaveSection(c: Context, frame: Tracker, p: Path, begun: Tracker, filters: seq<string>, i: nat, s: Sec,
          own: seq<string>, res: Run, out: Outcome)
    requires Focus(c, frame, p, begun, filters) && i < |begun.children| && IsPath(c.root, p + [i])
    requires Focus(res.ctx, c.root, p + [i], out.node, own) && res.ctx.current == (p + [i]) + Chain(s.body)
    requires Valid(res) && CanClose(out.node, s.body)
    ensures p + [i] <= res.ctx.current
    ensures var left := CloseUpTo(res.ctx, p + [i]);
      && left.completed && left.current == p
      && Focus(left, frame, p, begun.(children := begun.children[i := Close(out.node, s.body, own)]), filters)
  {
    var closed := Close(out.node, s.body, own);
    LiftClose(res.ctx, c.root, p + [i], out.node, s.body, own, p + [i]);
    assert Parent(p + [i]) == p;
    FocusParent(c, frame, p, begun, filters, i, closed, CloseUpTo(res.ctx, p + [i]));
  }

  /** Failing the section whose body has just thrown. */
  lemma FailSection(c: Context, frame: Tracker, p: Path, begun: Tracker, filters: seq<string>, i: nat, own: seq<string>,
          ctx: Context, node: Tracker)
    requires Focus(c, frame, p, begun, filters) && i < |begun.children| && IsPath(c.root, p + [i])
    requires Focus(ctx, c.root, p + [i], node, own)
    ensures IsPath(ctx.root, p + [i])
    ensures var left := Fail(ctx, p + [i]);
      && left.current == p
      && Focus(left, frame, p, begun.(children := begun.children[i := node.(state := Failed)],
          state := NeedsAnotherRun), filters)
  {
    var failed := node.(state := Failed);
    var root := SetState(ctx.root, p + [i], Failed);
    SetAtTwice(c.root, p + [i], node, failed);
    assert Parent(p + [i]) == p;
    var t' := begun.(children := begun.children[i := failed]);
    var c1 := ctx.(root := root);
    FocusParent(c, frame, p, begun, filters, i, failed, c1);
    Refocus(c1, frame, p, t', filters, t'.(state := NeedsAnotherRun), Fail(ctx, p + [i]));
  }

  lemma {:induction false} LiftBody(r: Run, frame: Tracker, p: Path, t: Tracker, b: Body, filters: seq<string>, d: nat,
          throws: Throws)
    requires Valid(r) && Focus(r.ctx, frame, p, t, filters) && r.ctx.current == p && !r.ctx.completed
        && r.unfinished == []
    requires t.state == Executing && Tidy(t.children, b, filters)
    requires WellFormed(b, t.id)
    ensures Lifted(ExecBody(r, b, d, throws), frame, p, p + Chain(b), RunBody(t, b, filters, d, r.trace, throws),
        filters)
    decreases b, 1, 0
  {
    match b
    case Gen(id, size, rest) =>
      var g := if t.children == [] then FreshGenerator(id, size) else t.children[0];
      LiftAcquireGenerator(r.ctx, frame, p, t, b, filters);
      var (c, index) := AcquireGenerator(r.ctx, id, size);
      var begun := t.(state := ExecutingChildren, children := [g.(state := Executing)]);
      var r1 := r.(ctx := c, trace := r.trace + [Value(id, index)]);
      FocusChild(c, frame, p, begun, filters, 0);
      LiftBody(r1, c.root, p + [0], g.(state := Executing), rest, filters, d, throws);
      var out := RunBody(g.(state := Executing), rest, filters, d, r1.trace, throws);
      PutOnly(t.children, out.node, out.node);
      LiftedUp(c, frame, p, begun, filters, ExecBody(r1, rest, d, throws), Chain(rest), out);
    case Subs(ss) =>
      assert p + Chain(b) == p;
      LiftSections(r, frame, p, t, b, 0, filters, d, throws);
  }

  lemma {:induction false} LiftSections(r: Run, frame: Tracker, p: Path, t: Tracker, b: Body, i: nat,
          filters: seq<string>, d: nat, throws: Throws)
    requires Valid(r) && Focus(r.ctx, frame, p, t, filters) && r.ctx.current == p && !r.ctx.completed
        && r.unfinished == []
    requires b.Subs? && i <= |t.children| && i <= |b.sections|
    requires t.state == Executing && Tidy(t.children, b, filters)
    requires WellFormed(b, t.id)
    requires forall j :: 0 <= j < i ==> IsComplete(t.children[j])
    ensures Lifted(ExecSections(r, b, i, d, throws), frame, p, p, RunSections(t, b, i, filters, d, r.trace, throws),
        filters)
    decreases b, 0, |b.sections| - i
  {
    hide Focus, RunSection, RunBody, ExecSection;
    if i < |b.sections| {
      var k := ChildAt(t, b, i, filters);
      LiftAcquireSection(r.ctx, frame, p, t, b, i, filters);
      TidyPut(t.children, b, i, filters);
      var (r1, entered) := SectionStarted(r, b.sections[i].id);
      if IsComplete(k) {
        LiftSections(r1, frame, p, t.(children := Put(t.children, i, k)), b, i + 1, filters, d, throws);
      } else {
        LiftEntered(r, frame, p, t, b, i, filters, d, throws);
      }
    }
  }

  /** Entering the section at `i`, whose tracker `k` is not complete. */
  lemma EnterSection(r: Run, frame: Tracker, p: Path, t: Tracker, b: Body, i: nat, filters: seq<string>)
    requires Valid(r) && Focus(r.ctx, frame, p, t, filters) && r.ctx.current == p && !r.ctx.completed
    requires b.Subs? && i <= |t.children| && i < |b.sections|
    requires Tidy(t.children, b, filters) && WellFormed(b, t.id)
    requires !IsComplete(ChildAt(t, b, i, filters))
    ensures var k := ChildAt(t, b, i, filters).(state := Executing);
      var begun := t.(state := ExecutingChildren, children := Put(t.children, i, k));
      var (r1, entered) := SectionStarted(r, b.sections[i].id);
      && entered && !r1.ctx.completed
      && r1 == r.(ctx := r1.ctx, active := r.active + [p + [i]],
          reports := r.reports + [SectionStarting(b.sections[i].id)])
      && r1.ctx.current == p + [i] && IsPath(r1.ctx.root, p + [i])
      && Focus(r1.ctx, frame, p, begun, filters)
      && Focus(r1.ctx, r1.ctx.root, p + [i], k, NextFilters(filters))
  {
    var k := ChildAt(t, b, i, filters);
    LiftAcquireSection(r.ctx, frame, p, t, b, i, filters);
    var k' := k.(state := Executing);
    PutTwice(t.children, i, k, k');
    FocusChild(SectionStarted(r, b.sections[i].id).0.ctx, frame, p,
        t.(state := ExecutingChildren, children := Put(t.children, i, k')), filters, i);
  }

  /** Leaving the section at `i` one way or the other; `out` is what its body did. */
  lemma ExitSection(c: Context, frame: Tracker, p: Path, begun: Tracker, filters: seq<string>, i: nat, s: Sec, res: Run,
          out: Outcome, fails: bool)
    requires Focus(c, frame, p, begun, filters) && i < |begun.children| && IsPath(c.root, p + [i])
    requires Lifted((res, out.thrown), c.root, p + [i], (p + [i]) + Chain(s.body), out, NextFilters(filters))
    requires Valid(res) && res.active != [] && Innermost(res) == p + [i]
    requires CanClose(out.node, s.body)
    requires fails ==> !out.thrown
    ensures var boom := out.thrown || fails;
      var left := if boom then EndSectionEarly(res, s.id) else EndSection(res, s.id);
      var node := if fails then out.node.(state := Failed) else Close(out.node, s.body, NextFilters(filters));
      && left.ctx.current == p && left.ctx.completed
      && left == res.(ctx := left.ctx, active := res.active[..|res.active| - 1],
                      unfinished := if boom then res.unfinished + [s.id] else res.unfinished,
                      reports := if boom then res.reports else res.reports + [SectionEnded(s.id)])
      && Focus(left.ctx, frame, p,
               begun.(children := begun.children[i := node], state := if fails then NeedsAnotherRun else begun.state),
                   filters)
  {
    if fails {
      FailSection(c, frame, p, begun, filters, i, NextFilters(filters), res.ctx, out.node);
    } else {
      LeaveSection(c, frame, p, begun, filters, i, s, NextFilters(filters), res, out);
    }
  }

  /** The case of LiftSections in which the section at `i` is entered. */
  lemma {:induction false} LiftEntered(r: Run, frame: Tracker, p: Path, t: Tracker, b: Body, i: nat,
          filters: seq<string>, d: nat, throws: Throws)
    requires Valid(r) && Focus(r.ctx, frame, p, t, filters) && r.ctx.current == p && !r.ctx.completed
        && r.unfinished == []
    requires b.Subs? && i <= |t.children| && i < |b.sections|
    requires t.state == Executing && Tidy(t.children, b, filters)
    requires WellFormed(b, t.id)
    requires forall j :: 0 <= j < i ==> IsComplete(t.children[j])
    requires !IsComplete(ChildAt(t, b, i, filters))
    ensures Lifted(ExecSections(r, b, i, d, throws), frame, p, p, RunSections(t, b, i, filters, d, r.trace, throws),
        filters)
    decreases b, 0, |b.sections| - i, 0
  {
    hide Focus, RunSection, ExecSection, SectionTidied, Lifted, SectionStarted;
    var s := b.sections[i];
    var own := NextFilters(filters);
    var k := ChildAt(t, b, i, filters);
    var k' := k.(state := Executing);
    var begun := t.(state := ExecutingChildren, children := Put(t.children, i, k'));
    EnterSection(r, frame, p, t, b, i, filters);
    var r1 := SectionStarted(r, s.id).0;
    LiftSection(r1, frame, p, begun, k, i, filters, s, d + 1, throws);
    TidySection(k, s, filters, d + 1, r.trace, throws);
    var sec := RunSection(k, s, own, d + 1, r.trace, throws);
    PutTwice(t.children, i, k', sec.node);
    AfterExit(t, b, i, sec, ExecSection(r1, s, d + 1, throws).0, frame, p, filters, d, throws);
  }

  /** Running the body of a section just entered, and leaving it. */
  lemma {:induction false} LiftSection(r: Run, frame: Tracker, p: Path, begun: Tracker, k: Tracker, i: nat,
          filters: seq<string>, s: Sec, d: nat, throws: Throws)
    requires Valid(r) && !r.ctx.completed && r.unfinished == []
    requires r.ctx.current == p + [i] && r.active != [] && Innermost(r) == p + [i] && IsPath(r.ctx.root, p + [i])
    requires Focus(r.ctx, frame, p, begun, filters)
    requires Focus(r.ctx, r.ctx.root, p + [i], k.(state := Executing), NextFilters(filters))
    requires begun.state == ExecutingChildren && i < |begun.children|
    requires k.kind.Section? && k.id == s.id && Tidy(k.children, s.body, NextFilters(filters))
    requires WellFormed(s.body, s.id)
    ensures var (left, boom) := ExecSection(r, s, d, throws);
      var sec := RunSection(k, s, NextFilters(filters), d, r.trace, throws);
      && left.ctx.current == p && left.trace == sec.trace && boom == sec.thrown
      && (boom <==> left.unfinished != []) && (!boom ==> left.ctx.completed)
      && Focus(left.ctx, frame, p,
               begun.(children := begun.children[i := sec.node],
                   state := if sec.node.state == Failed then NeedsAnotherRun else begun.state), filters)
    decreases s.body, 2, 0
  {
    hide Focus, Tidy, RunBody, Close, CanClose, WellFormed;
    var own := NextFilters(filters);
    var k' := k.(state := Executing);
    var r2 := r.(trace := r.trace + [Enter(s.id)]);
    LiftBody(r2, r.ctx.root, p + [i], k', s.body, own, d, throws);
    RunCanClose(k', s.body, own, d, r2.trace, throws);
    RunKeeps(k', s.body, own, d, r2.trace, throws);
    var ran := ExecBody(r2, s.body, d, throws).0;
    var out := RunBody(k', s.body, own, d, r2.trace, throws);
    ExitSection(r.ctx, frame, p, begun, filters, i, s, ran, out, !out.thrown && throws(d, out.trace));
    CloseNotFailed(out.node, s.body, own);
  }

  lemma CloseNotFailed(t: Tracker, b: Body, filters: seq<string>)
    requires CanClose(t, b) && t.kind.Section?
    ensures Close(t, b, filters).state != Failed
  {
  }

  /** What follows the section at `i`: nothing while unwinding, otherwise the later ones are registered. */
  lemma AfterExit(t: Tracker, b: Body, i: nat, sec: Outcome, left: Run, frame: Tracker, p: Path, filters: seq<string>,
          d: nat, throws: Throws)
    requires b.Subs? && i <= |t.children| && i < |b.sections|
    requires Tidy(t.children, b, filters) && WellFormed(b, t.id)
    requires forall j :: 0 <= j < i ==> IsComplete(t.children[j])
    requires !IsComplete(ChildAt(t, b, i, filters))
    requires SectionTidied(ChildAt(t, b, i, filters), sec.node, b.sections[i], filters)
    requires Valid(left) && left.ctx.current == p && left.trace == sec.trace
    requires (sec.thrown <==> left.unfinished != []) && (!sec.thrown ==> left.ctx.completed)
    requires Focus(left.ctx, frame, p, t.(children := Put(t.children, i, sec.node),
        state := if sec.node.state == Failed then NeedsAnotherRun else ExecutingChildren), filters)
    ensures Lifted(if sec.thrown then (left, true) else ExecSections(left, b, i + 1, d, throws), frame, p, p,
                   WithSection(t, b, i, sec, filters), filters)
  {
    if !sec.thrown {
      var t' := t.(children := Put(t.children, i, sec.node),
          state := if sec.node.state == Failed then NeedsAnotherRun else ExecutingChildren);
      OutcomeOfSection(t, b, i, sec.(thrown := true), filters);
      LiftRegister(left, frame, p, t', b, i + 1, filters, d, throws);
    }
  }
}
