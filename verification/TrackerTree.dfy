/** Values of the section/generator tracker: the state a test case keeps between two cycles.
    A tracker is owned by its parent, so a tree value holds exactly what the heap of trackers holds. */
module TrackerTree {

  datatype NameAndLocation = NameAndLocation(name: string, file: string, line: nat)

  datatype CycleState =
    | NotStarted
    | Executing
    | ExecutingChildren
    | NeedsAnotherRun
    | CompletedSuccessfully
    | Failed

  /** A section tracker owns its filters; a generator tracker owns a generator of `size` elements that
      stands at element `index` (`index == size` once it is exhausted). */
  datatype Kind = Section(filters: seq<string>) | Generator(size: nat, index: nat)

  datatype Tracker = Tracker(id: NameAndLocation, kind: Kind, state: CycleState, children: seq<Tracker>)

  predicate IsSpace(c: char) {
    c == ' ' || c == '\t' || c == '\n' || c == '\r'
  }

  function TrimLeft(s: string): string {
    if s != [] && IsSpace(s[0]) then TrimLeft(s[1..]) else s
  }

  function Trim(s: string): string {
    TrimRight(TrimLeft(s))
  }

  function TrimRight(s: string): string {
    if s != [] && IsSpace(s[|s| - 1]) then TrimRight(s[..|s| - 1]) else s
  }

  lemma {:induction false} TrimLeftMeans(s: string) returns (a: string)
    ensures s == a + TrimLeft(s) && (forall k :: 0 <= k < |a| ==> a[k] in " \t\n\r")
    ensures TrimLeft(s) != "" ==> TrimLeft(s)[0] !in " \t\n\r"
  {
    a := "";
    if s != "" && IsSpace(s[0]) {
      var b := TrimLeftMeans(s[1..]);
      a := [s[0]] + b;
      assert s == [s[0]] + s[1..];
    }
  }

  lemma {:induction false} TrimRightMeans(s: string) returns (b: string)
    ensures s == TrimRight(s) + b && (forall k :: 0 <= k < |b| ==> b[k] in " \t\n\r")
    ensures TrimRight(s) != "" ==> TrimRight(s)[|TrimRight(s)| - 1] !in " \t\n\r"
    decreases |s|
  {
    b := "";
    if s != "" && IsSpace(s[|s| - 1]) {
      var c := TrimRightMeans(s[..|s| - 1]);
      b := c + [s[|s| - 1]];
      assert s == s[..|s| - 1] + [s[|s| - 1]];
    }
  }

  /** A trimmed name is the name without the whitespace at both ends. */
  lemma TrimMeans(s: string) returns (a: string, b: string)
    ensures var r := Trim(s);
      && s == a + r + b
      && (forall k :: 0 <= k < |a| ==> a[k] in " \t\n\r") && (forall k :: 0 <= k < |b| ==> b[k] in " \t\n\r")
      && (r != "" ==> r[0] !in " \t\n\r" && r[|r| - 1] !in " \t\n\r")
  {
    a := TrimLeftMeans(s);
    b := TrimRightMeans(TrimLeft(s));
  }

  /** The filters a new section inherits from the nearest section around it. */
  function NextFilters(filters: seq<string>): seq<string> {
    if |filters| > 1 then filters[1..] else []
  }

  /** The filters of the root tracker: one empty entry each for the root and the test case. */
  function InitialFilters(filters: seq<string>): seq<string> {
    if filters == [] then [] else ["", ""] + filters
  }

  /** Whether a section with these filters may be entered. */
  predicate Admits(filters: seq<string>, name: string) {
    filters == [] || filters[0] == "" || Trim(name) in filters
  }

  predicate Finished(state: CycleState) {
    state == CompletedSuccessfully || state == Failed
  }

  predicate IsComplete(t: Tracker) {
    if t.kind.Section? && !Admits(t.kind.filters, t.id.name) then true else Finished(t.state)
  }

  predicate IsOpen(t: Tracker) {
    t.state != NotStarted && !IsComplete(t)
  }

  predicate AllComplete(ts: seq<Tracker>) {
    forall i :: 0 <= i < |ts| ==> IsComplete(ts[i])
  }

  predicate SomeStarted(ts: seq<Tracker>) {
    exists i :: 0 <= i < |ts| && ts[i].state != NotStarted
  }

  function FreshSection(id: NameAndLocation, filters: seq<string>): Tracker {
    Tracker(id, Section(filters), NotStarted, [])
  }

  function FreshGenerator(id: NameAndLocation, size: nat): Tracker {
    Tracker(id, Generator(size, 0), NotStarted, [])
  }

  /** The state change of closing a tracker whose own open descendants are already closed. */
  function BaseClose(t: Tracker): Tracker {
    match t.state
    case Executing => t.(state := CompletedSuccessfully)
    case ExecutingChildren => if AllComplete(t.children) then t.(state := CompletedSuccessfully) else t
    case _ => t
  }

  /** Closing a tracker in any other state is an internal error. */
  predicate Closable(state: CycleState) {
    state == Executing || state == ExecutingChildren || state == NeedsAnotherRun
  }

  /** Whether a generator must keep its value because a section behind it could still start.
      `filters` are those of the nearest section around the generator. */
  predicate ShouldWait(children: seq<Tracker>, filters: seq<string>) {
    && children != []
    && !SomeStarted(children)
    && (filters == [] || exists i ::
        0 <= i < |children| && children[i].kind.Section? && Trim(children[i].id.name) in filters)
  }

  /** What a generator tracker does after the common part of closing: wait, advance or stay exhausted. */
  function FinishGenerator(g: Tracker, filters: seq<string>): Tracker
    requires g.kind.Generator?
  {
    if ShouldWait(g.children, filters) then g.(children := [], state := Executing)
    else if g.state != CompletedSuccessfully then g
    else
      var moved := g.(kind := Generator(g.kind.size,
          if g.kind.index < g.kind.size then g.kind.index + 1 else g.kind.index));
      if moved.kind.index < moved.kind.size then moved.(children := [], state := Executing) else moved
  }

  function CloseOne(t: Tracker, filters: seq<string>): Tracker {
    var closed := BaseClose(t);
    if t.kind.Generator? then FinishGenerator(closed, filters) else closed
  }
}
