/** What the run context does through its pointers is, seen from one tracker, what TrackerCycle says. */
module TrackerLift {
  import opened TrackerTree
  import opened TestBody
  import opened TrackerPaths
  import opened TrackerMachine
  import opened TrackerCycle
  import opened TrackerTidy

  /** The trackers strictly above `p` are all executing a child. */
  ghost predicate Above(t: Tracker, p: Path)
    requires IsPath(t, p)
    decreases |p|
  {
    p == [] || (t.state == ExecutingChildren && Above(t.children[p[0]], p[1..]))
  }

  lemma {:induction false} AboveSetAt(t: Tracker, p: Path, x: Tracker)
    requires IsPath(t, p) && Above(t, p)
    ensures Above(SetAt(t, p, x), p)
    decreases |p|
  {
    if p != [] {
      AboveSetAt(t.children[p[0]], p[1..], x);
    }
  }

  lemma {:induction false} AboveParent(t: Tracker, p: Path)
    requires IsPath(t, p) && p != [] && Above(t, p)
    ensures IsPath(t, Parent(p)) && At(t, Parent(p)).state == ExecutingChildren
    decreases |p|
  {
    if |p| > 1 {
      AboveParent(t.children[p[0]], p[1..]);
      assert Parent(p)[1..] == Parent(p[1..]);
    }
  }

  /** One step further down. */
  lemma {:induction false} AboveChild(t: Tracker, p: Path, i: nat)
    requires IsPath(t, p) && Above(t, p) && At(t, p).state == ExecutingChildren && i < |At(t, p).children|
    ensures IsPath(t, p + [i]) && Above(t, p + [i])
    decreases |p|
  {
    Nested(t, p, [i]);
    if p == [] {
      assert (p + [i])[1..] == [];
    } else {
      assert (p + [i])[1..] == p[1..] + [i];
      AboveChild(t.children[p[0]], p[1..], i);
    }
  }

  /** An update of a child is an update of its parent. */
  lemma SetChild(t: Tracker, p: Path, i: nat, x: Tracker)
    requires IsPath(t, p) && i < |At(t, p).children|
    ensures IsPath(t, p + [i]) && At(t, p + [i]) == At(t, p).children[i]
    ensures SetAt(t, p + [i], x) == SetAt(t, p, At(t, p).(children := At(t, p).children[i := x]))
  {
    Nested(t, p, [i]);
    NestedSet(t, p, [i], x);
  }

  /** Marking stops at once below trackers that already execute a child. */
  lemma OpenChildStops(t: Tracker, p: Path)
    requires IsPath(t, p) && Above(t, p)
    ensures OpenChild(t, p) == SetAt(t, p, At(t, p).(state := ExecutingChildren))
  {
    SetAtAt(t, p);
    if p != [] && At(t, p).state != ExecutingChildren {
      var r := SetState(t, p, ExecutingChildren);
      AboveSetAt(t, p, At(t, p).(state := ExecutingChildren));
      AboveParent(r, p);
    }
  }

  lemma {:induction false} FiltersBelow(t: Tracker, p: Path, q: Path, outer: seq<string>)
    requires IsPath(t, p) && IsPath(t, p + q) && IsPath(At(t, p), q)
    ensures At(t, p).kind.Section? ==> FiltersAround(t, p + q, outer) == FiltersAround(At(t, p), q, [])
    ensures At(t, p).kind.Generator? ==>
        FiltersAround(t, p + q, outer) == FiltersAround(At(t, p), q, FiltersAround(t, p, outer))
    decreases |p|
  {
    if p == [] {
      assert p + q == q;
    } else {
      assert (p + q)[1..] == p[1..] + q;
      FiltersBelow(t.children[p[0]], p[1..], q, if t.kind.Section? then t.kind.filters else outer);
    }
  }

  /** The context stands at the tracker `t` in place `p` of the frame `frame`; nothing is wrong so far. */
  ghost predicate Focus(c: Context, frame: Tracker, p: Path, t: Tracker, filters: seq<string>)
  {
    && IsPath(frame, p) && Above(frame, p)
    && c.root == SetAt(frame, p, t)
    && FiltersAround(c.root, p, []) == filters
    && !c.fault
  }

  /** Replacing the tracker in focus. */
  lemma Refocus(c: Context, frame: Tracker, p: Path, t: Tracker, filters: seq<string>, t': Tracker, c': Context)
    requires Focus(c, frame, p, t, filters)
    requires t'.kind.Section? == t.kind.Section? && (t'.kind.Section? ==> t'.kind == t.kind)
    requires c'.root == SetAt(c.root, p, t') && !c'.fault
    ensures Focus(c', frame, p, t', filters)
    ensures SetAt(c.root, p, t') == SetAt(frame, p, t')
  {
    SetAtTwice(frame, p, t, t');
    FiltersSetAt(c.root, p, t', []);
  }

  /** Moving the focus to a child of a tracker that executes a child. */
  lemma FocusChild(c: Context, frame: Tracker, p: Path, t: Tracker, filters: seq<string>, i: nat)
    requires Focus(c, frame, p, t, filters) && t.state == ExecutingChildren && i < |t.children|
    ensures IsPath(c.root, p + [i]) && At(c.root, p + [i]) == t.children[i]
    ensures Focus(c, c.root, p + [i], t.children[i],
        if t.children[i].kind.Section? then t.children[i].kind.filters else filters)
  {
    AboveSetAt(frame, p, t);
    AboveChild(c.root, p, i);
    SetChild(c.root, p, i, t.children[i]);
    SetAtAt(c.root, p + [i]);
    assert p + [] == p;
    FiltersBelow(c.root, p, [], []);
    FiltersBelow(c.root, p, [i], []);
    assert [i][1..] == [];
  }

  /** Moving the focus back up. */
  lemma FocusParent(c: Context, frame: Tracker, p: Path, t: Tracker, filters: seq<string>, i: nat, x: Tracker,
          c': Context)
    requires Focus(c, frame, p, t, filters) && i < |t.children|
    requires IsPath(c.root, p + [i]) && c'.root == SetAt(c.root, p + [i], x) && !c'.fault
    ensures Focus(c', frame, p, t.(children := t.children[i := x]), filters)
  {
    SetChild(c.root, p, i, x);
    Refocus(c, frame, p, t, filters, t.(children := t.children[i := x]), c');
  }

  /** Opening the child at `i` of the tracker in focus. */
  lemma LiftOpen(c: Context, frame: Tracker, p: Path, t: Tracker, filters: seq<string>, i: nat)
    requires Focus(c, frame, p, t, filters) && i < |t.children|
    ensures IsPath(c.root, p + [i])
    ensures var begun := t.(state := ExecutingChildren,
        children := t.children[i := t.children[i].(state := Executing)]);
      && Open(c, p + [i]) == c.(root := SetAt(frame, p, begun), current := p + [i])
      && Focus(Open(c, p + [i]), frame, p, begun, filters)
  {
    var x := t.children[i].(state := Executing);
    var t' := t.(children := t.children[i := x]);
    var begun := t'.(state := ExecutingChildren);
    SetChild(c.root, p, i, x);
    var root := SetState(c.root, p + [i], Executing);
    assert Parent(p + [i]) == p;
    var c1 := c.(root := root);
    Refocus(c, frame, p, t, filters, t', c1);
    AboveSetAt(frame, p, t');
    OpenChildStops(root, p);
    Refocus(c1, frame, p, t', filters, begun, Open(c, p + [i]));
  }

  /** Distinct siblings are found where they were registered. */
  lemma FindAt(t: Tracker, b: Body, i: nat, filters: seq<string>)
    requires b.Subs? && i < |b.sections| && i <= |t.children|
    requires Tidy(t.children, b, filters)
    requires forall j, k :: 0 <= j < k < |b.sections| ==> b.sections[j].id != b.sections[k].id
    ensures FindChild(t.children, b.sections[i].id) == i
  {
    var k := FindChild(t.children, b.sections[i].id);
    assert forall j :: 0 <= j < |t.children| ==> t.children[j].id == b.sections[j].id;
  }

  lemma LiftAcquireSection(c: Context, frame: Tracker, p: Path, t: Tracker, b: Body, i: nat, filters: seq<string>)
    requires Focus(c, frame, p, t, filters) && c.current == p
    requires b.Subs? && i < |b.sections| && i <= |t.children|
    requires Tidy(t.children, b, filters) && WellFormed(b, t.id)
    ensures var k := ChildAt(t, b, i, filters);
      var t1 := t.(children := Put(t.children, i, k));
      var begun := t1.(state := ExecutingChildren, children := t1.children[i := k.(state := Executing)]);
      var (c', q) := AcquireSection(c, b.sections[i].id);
      && q == p + [i]
      && (if c.completed || IsComplete(k) then
            c' == c.(root := SetAt(frame, p, t1)) && Focus(c', frame, p, t1, filters) && At(c'.root, q) == k
          else
            c' == c.(root := SetAt(frame, p, begun), current := q) && Focus(c', frame, p, begun, filters)
            && At(c'.root, q) == k.(state := Executing))
  {
    FindAt(t, b, i, filters);
    var k := ChildAt(t, b, i, filters);
    var t1 := t.(children := Put(t.children, i, k));
    assert t1.children[i] == k;
    var c1 := c.(root := SetAt(c.root, p, t1));
    Refocus(c, frame, p, t, filters, t1, c1);
    if i < |t.children| {
      assert t1 == t;
      SetAtAt(c.root, p);
    }
    SetChild(c1.root, p, i, k);
    LiftOpen(c1, frame, p, t1, filters, i);
    var begun := t1.(state := ExecutingChildren, children := t1.children[i := k.(state := Executing)]);
    SetChild(SetAt(frame, p, begun), p, i, k);
  }

  /** Where the run context stands below a tracker whose body has run: at its innermost generator. */
  function Chain(b: Body): Path {
    match b
    case Gen(_, _, rest) => [0] + Chain(rest)
    case Subs(_) => []
  }

  /** Closing a tracker and the generators inside it goes through legal states only. */
  ghost predicate CanClose(t: Tracker, b: Body)
    decreases b
  {
    && Closable(t.state)
    && (b.Gen? ==> t.state == ExecutingChildren && |t.children| == 1 && t.children[0].kind.Generator?
                   && CanClose(t.children[0], b.rest))
  }

  /** Closing pointer by pointer, innermost first, closes the tracker in focus. */
  lemma {:induction false} LiftClose(c: Context, frame: Tracker, p: Path, t: Tracker, b: Body, filters: seq<string>,
          top: Path)
    requires Focus(c, frame, p, t, filters) && p != []
    requires top != [] && top <= p
    requires c.current == p + Chain(b) && IsPath(c.root, c.current)
    requires CanClose(t, b)
    ensures top <= c.current
    ensures var r := Context(SetAt(frame, p, Close(t, b, filters)), Parent(p), true, false);
      && IsPath(r.root, r.current)
      && CloseUpTo(c, top) == if top == p then r else CloseUpTo(r, top)
    decreases b
  {
    var done := Close(t, b, filters);
    if b.Subs? {
      assert c.current == p;
      FiltersSetAt(c.root, p, t, []);
      SetAtTwice(frame, p, t, done);
      PrefixIsPath(SetAt(frame, p, done), p, |p| - 1);
    } else {
      var g := t.children[0];
      assert c.current == (p + [0]) + Chain(b.rest);
      FocusChild(c, frame, p, t, filters, 0);
      LiftClose(c, c.root, p + [0], g, b.rest, filters, top);
      var g' := Close(g, b.rest, filters);
      var c1 := Context(SetAt(c.root, p + [0], g'), p, true, false);
      FocusParent(c, frame, p, t, filters, 0, g', c1);
      var t1 := t.(children := t.children[0 := g']);
      assert CloseInner(t, b, filters) == t1;
      SetAtTwice(frame, p, t1, done);
      PrefixIsPath(SetAt(frame, p, done), p, |p| - 1);
    }
  }

  /** A body that has run leaves trackers that can be closed. */
  lemma {:induction false} RunCanClose(t: Tracker, b: Body, filters: seq<string>, d: nat, trace: Trace, throws: Throws)
    requires t.state == Executing && Tidy(t.children, b, filters)
    ensures CanClose(RunBody(t, b, filters, d, trace, throws).node, b)
    decreases b
  {
    match b
    case Gen(id, size, rest) =>
      var g := if t.children == [] then FreshGenerator(id, size) else t.children[0];
      RunCanClose(g.(state := Executing), rest, filters, d, trace + [Value(id, g.kind.index)], throws);
      RunKeeps(g.(state := Executing), rest, filters, d, trace + [Value(id, g.kind.index)], throws);
    case Subs(_) =>
      SectionsCanClose(t, b, 0, filters, d, trace, throws);
  }

  lemma {:induction false} SectionsCanClose(t: Tracker, b: Body, i: nat, filters: seq<string>, d: nat, trace: Trace,
          throws: Throws)
    requires b.Subs? && i <= |t.children| && Closable(t.state)
    ensures Closable(RunSections(t, b, i, filters, d, trace, throws).node.state)
    ensures RunSections(t, b, i, filters, d, trace, throws).node.kind == t.kind
    ensures RunSections(t, b, i, filters, d, trace, throws).node.id == t.id
    decreases |b.sections| - i
  {
    if i < |b.sections| {
      var c := ChildAt(t, b, i, filters);
      if IsComplete(c) {
        SectionsCanClose(t.(children := Put(t.children, i, c)), b, i + 1, filters, d, trace, throws);
      } else {
        var r := RunSection(c, b.sections[i], NextFilters(filters), d + 1, trace, throws);
        RegisterKeeps(WithSection(t, b, i, r.(thrown := true), filters).node, b, i + 1, filters);
      }
    }
  }

  lemma {:induction false} RegisterKeeps(t: Tracker, b: Body, i: nat, filters: seq<string>)
    requires b.Subs? && i <= |t.children|
    ensures var r := Register(t, b, i, filters); r == t.(children := r.children)
    decreases |b.sections| - i
  {
    if i < |b.sections| {
      RegisterKeeps(t.(children := Put(t.children, i, ChildAt(t, b, i, filters))), b, i + 1, filters);
    }
  }

  lemma {:induction false} RunKeeps(t: Tracker, b: Body, filters: seq<string>, d: nat, trace: Trace, throws: Throws)
    requires Closable(t.state)
    ensures var r := RunBody(t, b, filters, d, trace, throws).node; r.kind == t.kind && r.id == t.id
  {
    if b.Subs? {
      SectionsCanClose(t, b, 0, filters, d, trace, throws);
    }
  }
}
