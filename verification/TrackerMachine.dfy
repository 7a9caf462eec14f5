/** The tracker context as the run context drives it: a tree of trackers, a pointer to the current one and
    the flag that this cycle is over. Pointers to trackers are the positions to follow from the root. */
module TrackerMachine {
  import opened TrackerTree
  import opened TestBody
  import opened TrackerPaths

  /** `fault` records an internal error: closing a tracker in an illogical state, a child of the wrong
      kind, or reading an exhausted generator. */
  datatype Context = Context(root: Tracker, current: Path, completed: bool, fault: bool)

  datatype Report = SectionStarting(id: NameAndLocation) | SectionEnded(id: NameAndLocation)

  /** The run context within one cycle: the open sections, the sections an exception has left, the reports
      sent so far and the events of this cycle. */
  datatype Run = Run(ctx: Context, active: seq<Path>, unfinished: seq<NameAndLocation>, reports: seq<Report>,
      trace: Trace)

  function FindChild(ts: seq<Tracker>, id: NameAndLocation): (i: nat)
    ensures i <= |ts|
    ensures i < |ts| ==> ts[i].id == id
    ensures forall j :: 0 <= j < i ==> ts[j].id != id
  {
    if ts == [] || ts[0].id == id then 0 else 1 + FindChild(ts[1..], id)
  }

  /** Marks the tracker at `p` and those above it as executing a child, up to the first that already is. */
  function OpenChild(root: Tracker, p: Path): (r: Tracker)
    requires IsPath(root, p)
    ensures forall q :: IsPath(root, q) ==> IsPath(r, q)
    decreases |p|
  {
    if At(root, p).state == ExecutingChildren then root
    else
      var r := SetState(root, p, ExecutingChildren);
      if p == [] then r
      else
        PrefixIsPath(r, p, |p| - 1);
        OpenChild(r, Parent(p))
  }

  function Open(c: Context, p: Path): (r: Context)
    requires IsPath(c.root, p)
    ensures forall q :: IsPath(c.root, q) ==> IsPath(r.root, q)
    ensures r.current == p
  {
    var root := SetState(c.root, p, Executing);
    if p == [] then c.(root := root, current := p)
    else
      PrefixIsPath(root, p, |p| - 1);
      c.(root := OpenChild(root, Parent(p)), current := p)
  }

  /** Closes the current tracker, whichever kind it is, and moves to its parent. */
  function CloseCurrent(c: Context): (r: Context)
    requires IsPath(c.root, c.current) && c.current != []
    ensures r.current == Parent(c.current) && IsPath(r.root, r.current)
  {
    var t := At(c.root, c.current);
    var root := SetAt(c.root, c.current, CloseOne(t, FiltersAround(c.root, c.current, [])));
    PrefixIsPath(root, c.current, |c.current| - 1);
    Context(root, Parent(c.current), true, c.fault || !Closable(t.state))
  }

  /** Closes every tracker from the current one up to and including the one at `p`. */
  function CloseUpTo(c: Context, p: Path): (r: Context)
    requires IsPath(c.root, c.current) && p != [] && p <= c.current
    ensures r.current == Parent(p) && IsPath(r.root, r.current)
    decreases |c.current|
  {
    var c' := CloseCurrent(c);
    if c.current == p then c' else CloseUpTo(c', p)
  }

  /** Fails the tracker at `p` and asks its parent for another run. */
  function Fail(c: Context, p: Path): (r: Context)
    requires IsPath(c.root, p) && p != []
    ensures r.current == Parent(p) && IsPath(r.root, r.current)
  {
    var root := SetState(c.root, p, Failed);
    PrefixIsPath(root, p, |p| - 1);
    Context(SetState(root, Parent(p), NeedsAnotherRun), Parent(p), true, c.fault)
  }

  /** Adds a child to the tracker at `p`. */
  function AddChild(root: Tracker, p: Path, child: Tracker): (r: Tracker)
    requires IsPath(root, p)
    ensures IsPath(r, p) && IsPath(r, p + [|At(root, p).children|])
  {
    var t := At(root, p);
    var r := SetAt(root, p, t.(children := t.children + [child]));
    Nested(r, p, [|t.children|]);
    r
  }

  /** Finds or adds the section tracker below the current one. */
  function RegisterSection(c: Context, id: NameAndLocation): (r: (Context, Path))
    requires IsPath(c.root, c.current)
    ensures r.0 == c.(root := r.0.root, fault := r.0.fault)
    ensures |r.1| == |c.current| + 1 && c.current <= r.1
    ensures IsPath(r.0.root, c.current) && IsPath(r.0.root, r.1)
  {
    var t := At(c.root, c.current);
    var i := FindChild(t.children, id);
    Nested(c.root, c.current, [i]);
    (if i < |t.children| then c.(fault := c.fault || !t.children[i].kind.Section?)
     else c.(root := AddChild(c.root, c.current, FreshSection(id, NextFilters(FiltersAround(c.root, c.current, []))))),
     c.current + [i])
  }

  /** Opens the section tracker found or added, when the cycle is not over and it is not complete. */
  function AcquireSection(c: Context, id: NameAndLocation): (r: (Context, Path))
    requires IsPath(c.root, c.current)
    ensures r.0.current == c.current || r.0.current == r.1
    ensures |r.1| == |c.current| + 1 && c.current <= r.1
    ensures IsPath(r.0.root, r.0.current) && IsPath(r.0.root, r.1)
  {
    var (c1, p) := RegisterSection(c, id);
    (if !c1.completed && !IsComplete(At(c1.root, p)) then Open(c1, p) else c1, p)
  }

  /** The generator tracker a GENERATE refers to: the current one, or one of its children. */
  function FindGenerator(c: Context, id: NameAndLocation): (r: (bool, Path))
    requires IsPath(c.root, c.current)
    ensures c.current <= r.1
    ensures r.0 ==> IsPath(c.root, r.1)
    ensures !r.0 ==> r.1 == c.current + [|At(c.root, c.current).children|]
  {
    var t := At(c.root, c.current);
    if t.id == id then (true, c.current)
    else
      var i := FindChild(t.children, id);
      Nested(c.root, c.current, [i]);
      (i < |t.children|, c.current + [i])
  }

  /** Opens the generator tracker found at `p`, unless it is complete, and reads its element. */
  function ReuseGenerator(c: Context, p: Path): (r: (Context, nat))
    requires IsPath(c.root, c.current) && IsPath(c.root, p) && c.current <= p
    ensures IsPath(r.0.root, r.0.current) && c.current <= r.0.current
  {
    ReadGenerator(if IsComplete(At(c.root, p)) then c else Open(c, p), p)
  }

  /** Adds a generator tracker below the current one, opens it and reads its first element. */
  function CreateGenerator(c: Context, id: NameAndLocation, size: nat): (r: (Context, nat))
    requires IsPath(c.root, c.current)
    ensures IsPath(r.0.root, r.0.current) && c.current <= r.0.current
  {
    var p := c.current + [|At(c.root, c.current).children|];
    ReadGenerator(Open(c.(root := AddChild(c.root, c.current, FreshGenerator(id, size))), p), p)
  }

  function AcquireGenerator(c: Context, id: NameAndLocation, size: nat): (r: (Context, nat))
    requires IsPath(c.root, c.current)
    ensures IsPath(r.0.root, r.0.current) && c.current <= r.0.current
  {
    var (found, p) := FindGenerator(c, id);
    if found then ReuseGenerator(c, p) else CreateGenerator(c, id, size)
  }

  function ReadGenerator(c: Context, p: Path): (r: (Context, nat))
    requires IsPath(c.root, p)
    ensures r.0 == c.(fault := r.0.fault)
  {
    match At(c.root, p).kind
    case Generator(size, index) => (c.(fault := c.fault || index >= size), index)
    case Section(_) => (c.(fault := true), 0)
  }

  /** The open sections are nested and lie on the way to the current tracker. */
  predicate Valid(r: Run) {
    && IsPath(r.ctx.root, r.ctx.current)
    && (forall i :: 0 <= i < |r.active| ==> r.active[i] != [] && r.active[i] <= r.ctx.current)
    && (forall i, j :: 0 <= i < j < |r.active| ==> r.active[i] < r.active[j])
  }

  function Innermost(r: Run): Path
    requires r.active != []
  {
    r.active[|r.active| - 1]
  }

  function Pop(r: Run): Run
    requires r.active != []
  {
    r.(active := r.active[..|r.active| - 1])
  }

  lemma PopValid(r: Run, c: Context)
    requires Valid(r) && r.active != []
    requires c.current == Parent(Innermost(r)) && IsPath(c.root, c.current)
    ensures Valid(Pop(r).(ctx := c))
  {
    var last := Innermost(r);
    forall i | 0 <= i < |r.active| - 1 ensures r.active[i] <= Parent(last) {
      assert r.active[i] < last;
    }
  }

  /** Entering a section that is open but not the current tracker would never be able to close it. */
  function SectionStarted(r: Run, id: NameAndLocation): (res: (Run, bool))
    requires Valid(r)
    ensures Valid(res.0)
    ensures res.1 ==> res.0.active == r.active + [res.0.ctx.current] && |res.0.ctx.current| == |r.ctx.current| + 1
    ensures !res.1 ==> res.0.active == r.active
    ensures r.ctx.current <= res.0.ctx.current
  {
    var (c, p) := AcquireSection(r.ctx, id);
    if !IsOpen(At(c.root, p)) then (r.(ctx := c), false)
    else if c.current != p then (r.(ctx := c.(fault := true)), false)
    else (r.(ctx := c, active := r.active + [p], reports := r.reports + [SectionStarting(id)]), true)
  }

  /** The end of a section; one that an exception has left comes here when no section is open any more. */
  function EndSection(r: Run, id: NameAndLocation): (res: Run)
    requires Valid(r)
    ensures Valid(res) && res.unfinished == r.unfinished
    ensures r.active == [] ==> res == r.(reports := r.reports + [SectionEnded(id)])
    ensures r.active != [] ==> res.active == Pop(r).active && res.ctx.current == Parent(Innermost(r))
  {
    var reported := r.(reports := r.reports + [SectionEnded(id)]);
    if r.active == [] then reported
    else
      var c := CloseUpTo(r.ctx, Innermost(r));
      PopValid(reported, c);
      Pop(reported).(ctx := c)
  }

  /** A section left by an exception: the innermost one fails, those around it are closed. */
  function EndSectionEarly(r: Run, id: NameAndLocation): (res: Run)
    requires Valid(r) && r.active != []
    ensures Valid(res) && res.active == Pop(r).active && res.ctx.current == Parent(Innermost(r))
  {
    var p := Innermost(r);
    PrefixIsPath(r.ctx.root, r.ctx.current, |p|);
    assert p == r.ctx.current[..|p|];
    var c := if r.unfinished == [] then Fail(r.ctx, p) else CloseUpTo(r.ctx, p);
    PopValid(r, c);
    Pop(r).(ctx := c, unfinished := r.unfinished + [id])
  }

  /** Runs a body below the current tracker; the flag says that an exception is unwinding. */
  function ExecBody(r: Run, b: Body, d: nat, throws: Throws): (res: (Run, bool))
    requires Valid(r)
    ensures Valid(res.0) && res.0.active == r.active && r.ctx.current <= res.0.ctx.current
    decreases b, 1, 0
  {
    match b
    case Gen(id, size, rest) =>
      var (c, index) := AcquireGenerator(r.ctx, id, size);
      ExecBody(r.(ctx := c, trace := r.trace + [Value(id, index)]), rest, d, throws)
    case Subs(ss) => ExecSections(r, b, 0, d, throws)
  }

  function ExecSections(r: Run, b: Body, i: nat, d: nat, throws: Throws): (res: (Run, bool))
    requires b.Subs? && Valid(r)
    ensures Valid(res.0) && res.0.active == r.active && r.ctx.current <= res.0.ctx.current
    decreases b, 0, |b.sections| - i
  {
    if i >= |b.sections| then (r, false)
    else
      var (r1, thrown) := ExecOne(r, b.sections[i], d + 1, throws);
      if thrown then (r1, true) else ExecSections(r1, b, i + 1, d, throws)
  }

  /** One SECTION, entered or passed over. */
  function ExecOne(r: Run, s: Sec, d: nat, throws: Throws): (res: (Run, bool))
    requires Valid(r)
    ensures Valid(res.0) && res.0.active == r.active && r.ctx.current <= res.0.ctx.current
    decreases s.body, 3, 0
  {
    var (r1, entered) := SectionStarted(r, s.id);
    if !entered then (r1, false)
    else
      assert Pop(r1).active == r.active;
      ExecSection(r1, s, d, throws)
  }

  /** The body of the section just entered, and its end; `d` is the section's nesting depth. */
  function ExecSection(r: Run, s: Sec, d: nat, throws: Throws): (res: (Run, bool))
    requires Valid(r) && r.active != [] && Innermost(r) == r.ctx.current
    ensures Valid(res.0) && res.0.active == Pop(r).active && res.0.ctx.current == Parent(r.ctx.current)
    decreases s.body, 2, 0
  {
    var (ran, thrown) := ExecBody(r.(trace := r.trace + [Enter(s.id)]), s.body, d, throws);
    if thrown || throws(d, ran.trace) then (EndSectionEarly(ran, s.id), true) else (EndSection(ran, s.id), false)
  }

  /** The sections an exception has left are reported once unwinding is over, outermost first. */
  function EndUnfinished(r: Run, n: nat): (res: Run)
    requires Valid(r) && n <= |r.unfinished| && r.active == []
    ensures Valid(res) && res.active == []
    decreases n
  {
    if n == 0 then r.(unfinished := [])
    else EndUnfinished(EndSection(r, r.unfinished[n - 1]), n - 1)
  }

  /** One cycle of the test case `id`; the run has no open section. */
  function ExecCycle(root: Tracker, id: NameAndLocation, b: Body, throws: Throws): (res: Run)
  {
    var (c, p) := AcquireSection(Context(root, [], false, false), id);
    var started := Run(c, [], [], [SectionStarting(id)], []);
    var (r, _) := ExecBody(started, b, 0, throws);
    var closed := if p <= r.ctx.current then CloseUpTo(r.ctx, p) else r.ctx.(fault := true);
    var ended := EndUnfinished(r.(ctx := closed), |r.unfinished|);
    ended.(reports := ended.reports + [SectionEnded(id)])
  }

  /** A test case runs cycle after cycle until its tracker is completed; here for at most `n` cycles.
      The result is the runs of the cycles and whether the test case is done. */
  function RunTest(root: Tracker, id: NameAndLocation, b: Body, throws: Throws, n: nat): (seq<Run>, bool)
    decreases n
  {
    if n == 0 then ([], false)
    else
      var r := ExecCycle(root, id, b, throws);
      var i := FindChild(r.ctx.root.children, id);
      if i < |r.ctx.root.children| && r.ctx.root.children[i].state == CompletedSuccessfully then ([r], true)
      else
        var (later, done) := RunTest(r.ctx.root, id, b, throws, n - 1);
        ([r] + later, done)
  }
}
