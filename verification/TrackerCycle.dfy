/** One cycle seen from inside a tracker: what running a body does to the tracker it belongs to,
    and the cycles that a tracker has left. */
module TrackerCycle {
  import opened TrackerTree
  import opened TestBody

  /** The tracker after the body ran (generators inside still open), the trace, and whether an
      exception is unwinding. */
  datatype Outcome = Outcome(node: Tracker, trace: Trace, thrown: bool)

  function Put(ts: seq<Tracker>, i: nat, t: Tracker): seq<Tracker>
    requires i <= |ts|
  {
    if i < |ts| then ts[i := t] else ts + [t]
  }

  lemma PutOnly(ts: seq<Tracker>, x: Tracker, y: Tracker)
    requires |ts| <= 1
    ensures Put(ts, 0, x) == [x] && [x][0 := y] == [y]
    ensures ts == [] ==> ts + [x] == [x]
  {
  }

  lemma PutTwice(ts: seq<Tracker>, i: nat, x: Tracker, y: Tracker)
    requires i <= |ts|
    ensures Put(ts, i, x)[i := y] == Put(ts, i, y)
  {
  }

  lemma PutSame(ts: seq<Tracker>, i: nat)
    requires i < |ts|
    ensures Put(ts, i, ts[i]) == ts
    ensures |ts| == 1 ==> ts == [ts[0]]
  {
  }

  function RunBody(t: Tracker, b: Body, filters: seq<string>, d: nat, trace: Trace, throws: Throws): Outcome
    decreases b, 1, 0
  {
    match b
    case Gen(id, size, rest) =>
      var g := if t.children == [] then FreshGenerator(id, size) else t.children[0];
      var index := if g.kind.Generator? then g.kind.index else 0;
      var r := RunBody(g.(state := Executing), rest, filters, d, trace + [Value(id, index)], throws);
      r.(node := t.(state := ExecutingChildren, children := Put(t.children, 0, r.node)))
    case Subs(ss) => RunSections(t, b, 0, filters, d, trace, throws)
  }

  function ChildAt(t: Tracker, b: Body, i: nat, filters: seq<string>): Tracker
    requires b.Subs? && i < |b.sections|
  {
    if i < |t.children| then t.children[i] else FreshSection(b.sections[i].id, NextFilters(filters))
  }

  /** Sections before the first incomplete one are passed over; that one runs and completes the cycle;
      the later ones are only registered, unless an exception skips them. */
  function RunSections(t: Tracker, b: Body, i: nat, filters: seq<string>, d: nat, trace: Trace, throws: Throws): Outcome
    requires b.Subs? && i <= |t.children|
    decreases b, 0, |b.sections| - i
  {
    if i >= |b.sections| then Outcome(t, trace, false)
    else
      var c := ChildAt(t, b, i, filters);
      if IsComplete(c) then
        RunSections(t.(children := Put(t.children, i, c)), b, i + 1, filters, d, trace, throws)
      else
        var r := RunSection(c, b.sections[i], NextFilters(filters), d + 1, trace, throws);
        var t' := t.(children := Put(t.children, i, r.node),
            state := if r.node.state == Failed then NeedsAnotherRun else ExecutingChildren);
        Outcome(if r.thrown then t' else Register(t', b, i + 1, filters), r.trace, r.thrown)
  }

  function RunSection(c: Tracker, s: Sec, own: seq<string>, d: nat, trace: Trace, throws: Throws): Outcome
    decreases s.body, 2, 0
  {
    var r := RunBody(c.(state := Executing), s.body, own, d, trace + [Enter(s.id)], throws);
    if !r.thrown && throws(d, r.trace) then Outcome(r.node.(state := Failed), r.trace, true)
    else r.(node := Close(r.node, s.body, own))
  }

  function Register(t: Tracker, b: Body, i: nat, filters: seq<string>): Tracker
    requires b.Subs? && i <= |t.children|
    decreases |b.sections| - i
  {
    if i >= |b.sections| then t
    else Register(t.(children := Put(t.children, i, ChildAt(t, b, i, filters))), b, i + 1, filters)
  }

  /** Closing a tracker closes the generators inside it first. */
  function Close(t: Tracker, b: Body, filters: seq<string>): Tracker
    decreases b
  {
    CloseOne(CloseInner(t, b, filters), filters)
  }

  function CloseInner(t: Tracker, b: Body, filters: seq<string>): Tracker
    decreases b, 0
  {
    if b.Gen? && t.children != [] then t.(children := t.children[0 := Close(t.children[0], b.rest, filters)]) else t
  }

  /** What the trackers below a tracker look like between two cycles. */
  ghost predicate Tidy(children: seq<Tracker>, b: Body, filters: seq<string>)
    decreases b
  {
    match b
    case Gen(id, size, rest) =>
      children != [] ==>
        && |children| == 1
        && var g := children[0];
        && g.id == id && g.kind.Generator? && g.kind.size == size && g.kind.index < size
        && !Finished(g.state)
        && Tidy(g.children, rest, filters)
    case Subs(ss) =>
      && |children| <= |ss|
      && (forall i :: 0 <= i < |children| ==>
            var c := children[i];
            && c.id == ss[i].id && c.kind == Section(NextFilters(filters))
            && (c.state == NotStarted ==> c.children == [])
            && (c.state != NotStarted ==> Admits(NextFilters(filters), c.id.name))
            && (IsOpen(c) ==> Tidy(c.children, ss[i].body, NextFilters(filters))))
      && (forall i, j :: 0 <= i < j < |children| && !IsComplete(children[i]) ==> children[j].state == NotStarted)
  }

  /** The cycles that a body has left when the trackers below it look like `children`. */
  ghost function Remaining(children: seq<Tracker>, b: Body, filters: seq<string>, d: nat, trace: Trace,
          throws: Throws): seq<Cycle>
    decreases b, 1, 0
  {
    match b
    case Gen(id, size, rest) =>
      if children == [] || !children[0].kind.Generator? then Enumerate(b, filters, d, trace, throws)
      else
        var g := children[0];
        Remaining(g.children, rest, filters, d, trace + [Value(id, g.kind.index)], throws)
        + EnumerateValues(b, g.kind.index + 1, filters, d, trace, throws)
    case Subs(ss) => RemainingSections(children, b, 0, filters, d, trace, throws, true)
  }

  ghost function RemainingSections(children: seq<Tracker>, b: Body, i: nat, filters: seq<string>, d: nat, trace: Trace,
          throws: Throws, again: bool): seq<Cycle>
    requires b.Subs?
    decreases b, 0, |b.sections| - i
  {
    if i >= |b.sections| then (if again then [Cycle(trace, false)] else [])
    else if i >= |children| then EnumerateSections(b, i, filters, d, trace, throws, again)
    else if IsComplete(children[i]) then RemainingSections(children, b, i + 1, filters, d, trace, throws, again)
    else
      var r := RemainingOf(children[i], b.sections[i], filters, d, trace, throws);
      r.list + RemainingSections(children, b, i + 1, filters, d, trace, throws, r.failed)
  }

  /** The cycles a section has left when its tracker is `c`. */
  ghost function RemainingOf(c: Tracker, s: Sec, filters: seq<string>, d: nat, trace: Trace, throws: Throws): Cycles
    decreases s.body, 2, 0
  {
    Cut(d + 1, Remaining(c.children, s.body, NextFilters(filters), d + 1, trace + [Enter(s.id)], throws), throws)
  }
}
