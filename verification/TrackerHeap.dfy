/** The trackers and their context as objects that point at each other, updated in place.
    A ghost tree and a ghost table of positions tie every object to its place in TrackerMachine's tree. */
module TrackerHeap {
  import opened TrackerTree
  import opened TrackerPaths
  import opened TrackerShape
  import Machine = TrackerMachine

  /** A tracker object; the virtual functions of section and generator trackers are told apart by `kind`.
      The ghost argument `p` of its methods is its position. */
  class ITracker {
    const id: NameAndLocation
    const ctx: TrackerContext
    const parent: ITracker?
    var kind: Kind
    var state: CycleState
    var children: seq<ITracker>

    constructor (id: NameAndLocation, kind: Kind, ctx: TrackerContext, parent: ITracker?)
      ensures this.id == id && this.kind == kind && this.ctx == ctx && this.parent == parent
      ensures state == NotStarted && children == []
    {
      this.id, this.kind, this.ctx, this.parent := id, kind, ctx, parent;
      state, children := NotStarted, [];
    }

    predicate IsComplete()
      reads this
    {
      if kind.Section? && !Admits(kind.filters, id.name) then true else Finished(state)
    }

    predicate IsOpen()
      reads this
    {
      state != NotStarted && !IsComplete()
    }

    /** This object sits at position `p` of its context. */
    ghost predicate Sits(p: Path)
      reads ctx, ctx.table.Values
    {
      ctx.Valid() && p in ctx.table && ctx.table[p] == this
    }

    /** The state change of close(), once every tracker inside is closed. */
    method Settle(ghost p: Path)
      requires Sits(p)
      modifies ctx`tree, ctx`fault, ctx.table.Values
      ensures ctx.table == old(ctx.table) && Sits(p)
      ensures IsPath(old(ctx.tree), p)
      ensures ctx.tree == SetAt(old(ctx.tree), p, BaseClose(At(old(ctx.tree), p)))
      ensures ctx.fault == (old(ctx.fault) || !Closable(At(old(ctx.tree), p).state))
    {
      hide Consistent;
      ctx.Known(p);
      SetAtAt(ctx.tree, p);
      ctx.CompleteChildren(p);
      match state {
        case NeedsAnotherRun =>
        case Executing => ctx.SetRunState(this, p, CompletedSuccessfully);
        case ExecutingChildren =>
          if forall i :: 0 <= i < |children| ==> children[i].IsComplete() {
            ctx.SetRunState(this, p, CompletedSuccessfully);
          }
        case _ => ctx.RaiseInternalError();
      }
    }

    /** Whether a generator must wait for a section behind it. */
    method ShouldWaitForChild(ghost p: Path) returns (wait: bool)
      requires Sits(p) && kind.Generator?
      ensures IsPath(ctx.tree, p)
      ensures wait == ShouldWait(At(ctx.tree, p).children, FiltersAround(ctx.tree, p, []))
    {
      hide Consistent;
      ctx.StartedChildren(p);
      if children == [] || exists i :: 0 <= i < |children| && children[i].state != NotStarted {
        return false;
      }
      var filters := SectionFilters(p);
      ctx.NamedChildren(p, filters);
      return filters == [] || exists i ::
          0 <= i < |children| && children[i].kind.Section? && Trim(children[i].id.name) in filters;
    }

    /** The filters of the nearest section at or above this tracker, found by following the parents. */
    method SectionFilters(ghost p: Path) returns (filters: seq<string>)
      requires Sits(p)
      ensures IsPath(ctx.tree, p) && filters == FiltersAround(ctx.tree, p, [])
    {
      hide Consistent;
      var section: ITracker := this;
      ghost var q := p;
      ctx.Known(p);
      while !section.kind.Section?
        invariant section.ctx == ctx && section.Sits(q) && IsPath(ctx.tree, q) && IsPath(ctx.tree, p)
        invariant FiltersAround(ctx.tree, q, []) == FiltersAround(ctx.tree, p, [])
        decreases |q|
      {
        ctx.Known(q);
        ctx.RootIsSection(q);
        FiltersOfParent(ctx.tree, q, []);
        section := section.parent;
        q := Parent(q);
      }
      ctx.Known(q);
      FiltersOfSection(ctx.tree, q, []);
      filters := section.kind.filters;
    }

    /** The generator's countedNext(): moves on, and says whether there is an element to move to. */
    method CountedNext(ghost p: Path) returns (moved: bool)
      requires Sits(p) && kind.Generator?
      modifies ctx`tree, this`kind
      ensures Sits(p) && ctx.table == old(ctx.table) && IsPath(old(ctx.tree), p)
      ensures var k := At(old(ctx.tree), p).kind;
        && k.Generator?
        && var k' := Generator(k.size, if k.index < k.size then k.index + 1 else k.index);
        && moved == (k'.index < k.size)
        && ctx.tree == SetAt(old(ctx.tree), p, At(old(ctx.tree), p).(kind := k'))
    {
      hide Consistent;
      ctx.Known(p);
      ctx.RootIsSection(p);
      var next := Generator(kind.size, if kind.index < kind.size then kind.index + 1 else kind.index);
      ctx.SetKind(this, p, next);
      moved := next.index < next.size;
    }

    /** What a generator tracker adds to close(): wait for a section, or move on to the next element. */
    method FinishClose(ghost p: Path)
      requires Sits(p) && kind.Generator? && ctx.here < p
      modifies ctx`tree, ctx`table, ctx.table.Values
      ensures ctx.Valid() && IsPath(old(ctx.tree), p) && ctx.Pruned(old(ctx.table), p)
      ensures At(old(ctx.tree), p).kind.Generator?
      ensures ctx.tree == SetAt(old(ctx.tree), p, FinishGenerator(At(old(ctx.tree), p),
          FiltersAround(old(ctx.tree), p, [])))
    {
      hide Consistent, SetAt, ShouldWait, FiltersAround;
      ctx.Known(p);
      SetAtAt(ctx.tree, p);
      var wait := ShouldWaitForChild(p);
      var again := wait;
      if !wait && state == CompletedSuccessfully {
        again := CountedNext(p);
      }
      ghost var moved := At(ctx.tree, p);
      if again {
        Restart(p);
        SetAtTwice(old(ctx.tree), p, moved, moved.(children := [], state := Executing));
      }
    }

    /** The common part of close(), once every tracker inside is closed. */
    method Leave(ghost p: Path)
      requires Sits(p) && ctx.here == p && p != []
      modifies ctx`tree, ctx`fault, ctx`current, ctx`here, ctx`completed, ctx.table.Values
      ensures Sits(p) && ctx.table == old(ctx.table) && IsPath(old(ctx.tree), p)
      ensures ctx.View() == Machine.Context(SetAt(old(ctx.tree), p, BaseClose(At(old(ctx.tree), p))), Parent(p), true,
                                            old(ctx.fault) || !Closable(At(old(ctx.tree), p).state))
    {
      hide Consistent;
      Settle(p);
      ctx.Known(p);
      ctx.SetCurrentTracker(parent, Parent(p));
      ctx.CompleteCycle();
    }

    /** close() of the current tracker, for either kind of tracker. */
    method CloseThis(ghost p: Path)
      requires Sits(p) && ctx.here == p && p != []
      modifies ctx, ctx.table.Values
      ensures ctx.Valid() && ctx.Pruned(old(ctx.table), p)
      ensures IsPath(old(ctx.tree), p) && ctx.View() == Machine.CloseCurrent(old(ctx.View()))
    {
      hide Consistent;
      ctx.Known(p);
      ghost var t := At(ctx.tree, p);
      ghost var filters := FiltersAround(ctx.tree, p, []);
      Leave(p);
      ctx.Known(p);
      FiltersSetAt(old(ctx.tree), p, BaseClose(t), []);
      if kind.Generator? {
        FinishClose(p);
        SetAtTwice(old(ctx.tree), p, BaseClose(t), FinishGenerator(BaseClose(t), filters));
      }
    }

    /** close(): closes the trackers from the current one up to this one. */
    method Close(ghost p: Path)
      requires Sits(p) && p != [] && p <= ctx.here
      modifies ctx, ctx.table.Values
      ensures ctx.Valid() && ctx.Pruned(old(ctx.table), p)
      ensures IsPath(old(ctx.tree), old(ctx.here)) && ctx.View() == Machine.CloseUpTo(old(ctx.View()), p)
      decreases |ctx.here| - |p|
    {
      hide Consistent, Machine.CloseCurrent;
      ctx.Known(ctx.here);
      while ctx.current != this
        invariant Sits(p) && p <= ctx.here && |ctx.here| <= |old(ctx.here)| && ctx.Pruned(old(ctx.table), p)
        invariant IsPath(ctx.tree, ctx.here) && Machine.CloseUpTo(ctx.View(), p)
            == Machine.CloseUpTo(old(ctx.View()), p)
        invariant ctx.table.Values <= old(ctx.table.Values)
        decreases |ctx.here|
      {
        assert ctx.here != p;
        ctx.current.Close(ctx.here);
        ctx.Known(ctx.here);
      }
      ctx.OnePlace(p);
      CloseThis(p);
    }

    /** fail(): this tracker has failed, its parent needs another run. */
    method Fail(ghost p: Path)
      requires Sits(p) && p != []
      modifies ctx`tree, ctx`current, ctx`here, ctx`completed, ctx.table.Values
      ensures ctx.Valid() && ctx.table == old(ctx.table)
      ensures IsPath(old(ctx.tree), p) && ctx.View() == Machine.Fail(old(ctx.View()), p)
    {
      hide Consistent, SetAt, At;
      ctx.Known(p);
      ctx.SetRunState(this, p, Failed);
      ctx.Known(p);
      ctx.SetRunState(parent, Parent(p), NeedsAnotherRun);
      ctx.SetCurrentTracker(parent, Parent(p));
      ctx.CompleteCycle();
    }

    method Restart(ghost p: Path)
      requires Sits(p) && ctx.here < p
      modifies ctx`tree, ctx`table, ctx.table.Values
      ensures Sits(p) && IsPath(old(ctx.tree), p) && ctx.Pruned(old(ctx.table), p)
      ensures ctx.tree == SetAt(old(ctx.tree), p, At(old(ctx.tree), p).(children := [], state := Executing))
    {
      hide Consistent;
      ctx.Known(p);
      ghost var t := At(ctx.tree, p);
      ctx.ClearChildren(this, p);
      ctx.SetRunState(this, p, Executing);
      SetAtTwice(old(ctx.tree), p, t.(children := []), t.(children := [], state := Executing));
    }

    method OpenChild(ghost p: Path)
      requires Sits(p)
      modifies ctx`tree, ctx.table.Values
      ensures Sits(p) && ctx.table == old(ctx.table)
      ensures IsPath(old(ctx.tree), p) && ctx.tree == Machine.OpenChild(old(ctx.tree), p)
      decreases |p|
    {
      hide Consistent;
      ctx.Known(p);
      if state != ExecutingChildren {
        ctx.SetRunState(this, p, ExecutingChildren);
        if parent != null {
          ctx.Known(p);
          parent.OpenChild(Parent(p));
        }
      }
    }

    method Open(ghost p: Path)
      requires Sits(p)
      modifies ctx`tree, ctx`current, ctx`here, ctx.table.Values
      ensures Sits(p) && ctx.table == old(ctx.table)
      ensures IsPath(old(ctx.tree), p) && ctx.View() == Machine.Open(old(ctx.View()), p)
    {
      hide Consistent;
      ctx.Known(p);
      ctx.SetRunState(this, p, Executing);
      ctx.SetCurrentTracker(this, p);
      if parent != null {
        ctx.Known(p);
        parent.OpenChild(Parent(p));
      }
    }
  }

  /** The fields of a tracker object at one moment. */
  datatype Fields = Fields(self: ITracker, data: Label, children: seq<ITracker>, parent: ITracker?)

  /** The objects at their positions carry what the tree has there, and point where the tree says. */
  ghost predicate Consistent(tree: Tracker, objects: map<Path, Fields>)
  {
    && tree.kind.Section?
    && (forall p :: p in objects <==> IsPath(tree, p))
    && (forall p {:trigger Labelled(tree, objects, p)} :: p in objects ==> Labelled(tree, objects, p))
    && (forall p {:trigger Linked(objects, p)} :: p in objects ==> Linked(objects, p))
    && (forall p, q :: p in objects && q in objects && objects[p].self == objects[q].self ==> p == q)
  }

  ghost predicate Labelled(tree: Tracker, objects: map<Path, Fields>, p: Path)
    requires p in objects && IsPath(tree, p)
  {
    && objects[p].data == LabelAt(tree, p)
    && objects[p].data.width == |objects[p].children|
    && if p == [] then objects[p].parent == null
        else Parent(p) in objects && objects[p].parent == objects[Parent(p)].self
  }

  ghost predicate Linked(objects: map<Path, Fields>, p: Path)
    requires p in objects
  {
    forall i :: 0 <= i < |objects[p].children| ==> p + [i] in objects && objects[p + [i]].self == objects[p].children[i]
  }

  lemma ParentOfChild(p: Path, i: nat)
    ensures p + [i] != [] && Parent(p + [i]) == p && (p + [i])[|p|] == i
  {
  }

  /** Updating a tracker without touching its children. */
  lemma KeepConsistent(tree: Tracker, objects: map<Path, Fields>, p: Path, x: Tracker, now: map<Path, Fields>)
    requires Consistent(tree, objects) && IsPath(tree, p)
    requires x.children == At(tree, p).children && (p == [] ==> x.kind.Section?)
    requires now.Keys == objects.Keys
    requires forall q :: q in now ==> now[q] == if q == p then
        objects[p].(data := Label(x.id, x.kind, x.state, |x.children|)) else objects[q]
    ensures Consistent(SetAt(tree, p, x), now)
  {
    var t := SetAt(tree, p, x);
    KeptShape(tree, p, x);
    assert Labelled(tree, objects, p);
    forall q: Path | q in now ensures Labelled(t, now, q) {
      assert Labelled(tree, objects, q);
    }
    forall q: Path | q in now ensures Linked(now, q) {
      assert Linked(objects, q);
    }
  }

  /** `now` is `objects` with the object `child` added as child `n` of the one at `p`. */
  ghost predicate Grown(objects: map<Path, Fields>, now: map<Path, Fields>, p: Path, n: nat, child: Fields)
  {
    && p in objects && n == |objects[p].children| && p + [n] !in objects
    && (forall q :: q in now <==> q in objects || q == p + [n])
    && now[p + [n]] == child
    && now[p] == objects[p].(data := objects[p].data.(width := n + 1), children := objects[p].children + [child.self])
    && (forall q :: q in objects && q != p ==> now[q] == objects[q])
  }

  lemma GrownLinks(objects: map<Path, Fields>, now: map<Path, Fields>, p: Path, n: nat, child: Fields)
    requires Grown(objects, now, p, n, child) && child.children == []
    requires forall q {:trigger Linked(objects, q)} :: q in objects ==> Linked(objects, q)
    ensures forall q {:trigger Linked(now, q)} :: q in now ==> Linked(now, q)
  {
    forall q: Path | q in objects ensures Linked(now, q) {
      assert Linked(objects, q);
      forall i | 0 <= i < |now[q].children| ensures q + [i] in now && now[q + [i]].self == now[q].children[i] {
        if q != p || i != n {
          assert q + [i] in objects;
        }
      }
    }
  }

  lemma GrownLabels(tree: Tracker, t: Tracker, objects: map<Path, Fields>, now: map<Path, Fields>, p: Path, n: nat,
          child: Fields)
    requires Grown(objects, now, p, n, child) && child.parent == objects[p].self && child.data.width == 0
        && child.children == []
    requires forall q :: q in objects <==> IsPath(tree, q)
    requires forall q {:trigger Labelled(tree, objects, q)} :: q in objects ==> Labelled(tree, objects, q)
    requires forall q :: IsPath(t, q) <==> IsPath(tree, q) || q == p + [n]
    requires LabelAt(t, p + [n]) == child.data
    requires forall q :: IsPath(tree, q) ==> LabelAt(t, q) == if q == p then LabelAt(tree, p).(width := n + 1)
        else LabelAt(tree, q)
    ensures forall q {:trigger Labelled(t, now, q)} :: q in now ==> IsPath(t, q) && Labelled(t, now, q)
  {
    ParentOfChild(p, n);
    assert Labelled(tree, objects, p);
    forall q: Path | q in objects ensures Labelled(t, now, q) {
      assert Labelled(tree, objects, q);
    }
  }

  /** Adding a new childless object. */
  lemma AddConsistent(tree: Tracker, objects: map<Path, Fields>, p: Path, n: nat, child: Fields, now: map<Path, Fields>)
    requires Consistent(tree, objects) && IsPath(tree, p)
    requires Grown(objects, now, p, n, child)
    requires child.children == [] && child.data.width == 0 && child.parent == objects[p].self
    requires forall q :: q in objects ==> objects[q].self != child.self
    ensures n == |At(tree, p).children|
    ensures Consistent(Machine.AddChild(tree, p, Tracker(child.data.id, child.data.kind, child.data.state, [])), now)
  {
    var c := Tracker(child.data.id, child.data.kind, child.data.state, []);
    assert Labelled(tree, objects, p);
    AddedShape(tree, p, c);
    var t := Machine.AddChild(tree, p, c);
    GrownLabels(tree, t, objects, now, p, n, child);
    GrownLinks(objects, now, p, n, child);
    assert LabelAt(t, []).kind.Section? by {
      assert IsPath(tree, []);
    }
  }

  /** Dropping the children of the tracker at `p`. */
  lemma ClearConsistent(tree: Tracker, objects: map<Path, Fields>, p: Path, x: Tracker, now: map<Path, Fields>)
    requires Consistent(tree, objects) && IsPath(tree, p)
    requires x.children == [] && (p == [] ==> x.kind.Section?)
    requires forall q :: q in now <==> q in objects && !(p < q)
    requires forall q :: q in now ==> now[q] == if q == p then
        objects[p].(data := Label(x.id, x.kind, x.state, 0), children := []) else objects[q]
    ensures Consistent(SetAt(tree, p, x), now)
  {
    ClearedShape(tree, p, x);
    var t := SetAt(tree, p, x);
    forall q: Path | q in now ensures Labelled(t, now, q) {
      assert Labelled(tree, objects, q);
      if q != [] {
        assert Parent(q) < q;
      }
    }
    forall q: Path | q in now ensures Linked(now, q) {
      assert Linked(objects, q);
      forall i | 0 <= i < |now[q].children| ensures q + [i] in now && now[q + [i]].self == now[q].children[i] {
        assert q + [i] in objects;
        if p < q + [i] {
          PrefixOfChild(p, q, i);
        }
      }
    }
  }

  lemma PrefixOfChild(p: Path, q: Path, i: nat)
    requires p < q + [i]
    ensures p <= q
  {
    assert q == (q + [i])[..|q|];
  }

  /** The two cases of registering a section, whose tracker would be child `i` of the current one. */
  lemma RegisterCases(c: Machine.Context, id: NameAndLocation, i: nat)
    requires IsPath(c.root, c.current) && i == Machine.FindChild(At(c.root, c.current).children, id)
    ensures var t := At(c.root, c.current);
      var (r, p) := Machine.RegisterSection(c, id);
      && p == c.current + [i]
      && r == if i < |t.children| then c.(fault := c.fault || !t.children[i].kind.Section?)
              else c.(root := Machine.AddChild(c.root, c.current,
                  FreshSection(id, NextFilters(FiltersAround(c.root, c.current, [])))))
  {
  }

  class TrackerContext {
    var root: ITracker?
    var current: ITracker?
    var completed: bool
    var fault: bool
    ghost var tree: Tracker
    ghost var table: map<Path, ITracker>
    ghost var here: Path

    /** startRun(): a fresh root tracker that owns the section filters. */
    constructor (filters: seq<string>)
      ensures Valid() && fresh(table.Values) && !fault && here == []
      ensures tree == FreshSection(NameAndLocation("{root}", "", 0), InitialFilters(filters))
    {
      root, current, completed, fault := null, null, false, false;
      new;
      var r := new ITracker(NameAndLocation("{root}", "", 0), Section(InitialFilters(filters)), this, null);
      root, current := r, r;
      tree, table, here := FreshSection(r.id, r.kind.filters), map[[] := r], [];
      assert forall p :: p in table <==> IsPath(tree, p);
      assert Labelled(tree, Objects(), []) && Linked(Objects(), []);
    }

    method StartCycle()
      requires Valid()
      modifies this`current, this`here, this`completed
      ensures Valid() && View() == Machine.Context(tree, [], false, fault)
    {
      current, completed := root, false;
      here := [];
    }

    ghost function Objects(): map<Path, Fields>
      reads this`table, table.Values
    {
      map p | p in table :: var x := table[p];
        Fields(x, Label(x.id, x.kind, x.state, |x.children|), x.children, x.parent)
    }

    ghost predicate Valid()
      reads this, table.Values
    {
      && Consistent(tree, Objects())
      && (forall p :: p in table ==> table[p].ctx == this)
      && [] in table && root == table[[]]
      && here in table && current == table[here]
    }

    ghost function View(): Machine.Context
      reads this
    {
      Machine.Context(tree, here, completed, fault)
    }

    method SetCurrentTracker(x: ITracker, ghost p: Path)
      requires Valid() && p in table && table[p] == x
      modifies this`current, this`here
      ensures Valid() && here == p && Objects() == old(Objects())
    {
      current := x;
      here := p;
    }

    method CompleteCycle()
      requires Valid()
      modifies this`completed
      ensures Valid() && completed
    {
      completed := true;
    }

    method RaiseInternalError()
      requires Valid()
      modifies this`fault
      ensures Valid() && fault
    {
      fault := true;
    }

    /** A child object sits one step below and looks like the tree's child. */
    lemma KnownChild(p: Path, i: nat)
      requires Valid() && p in table && i < |table[p].children|
      ensures IsPath(tree, p) && |At(tree, p).children| == |table[p].children|
      ensures p + [i] in table && table[p + [i]] == table[p].children[i]
      ensures var x := table[p].children[i];
        var t := At(tree, p).children[i];
        && x.id == t.id && x.kind == t.kind && x.state == t.state && x.IsComplete() == IsComplete(t)
            && x.IsOpen() == IsOpen(t)
    {
      assert Linked(Objects(), p);
      assert p + [i] in Objects();
      Known(p);
      Known(p + [i]);
      Nested(tree, p, [i]);
    }

    lemma RootIsSection(p: Path)
      requires Valid() && p in table && table[p].kind.Generator?
      ensures p != []
    {
      Known(p);
    }

    lemma StartedChildren(p: Path)
      requires Valid() && p in table
      ensures IsPath(tree, p) && |At(tree, p).children| == |table[p].children|
      ensures (exists i :: 0 <= i < |table[p].children| && table[p].children[i].state != NotStarted)
          <==> SomeStarted(At(tree, p).children)
    {
      Known(p);
      forall i | 0 <= i < |table[p].children| ensures table[p].children[i].state == At(tree, p).children[i].state {
        KnownChild(p, i);
      }
    }

    lemma NamedChildren(p: Path, filters: seq<string>)
      requires Valid() && p in table
      ensures IsPath(tree, p) && |At(tree, p).children| == |table[p].children|
      ensures (exists i :: 0 <= i < |table[p].children| && table[p].children[i].kind.Section?
                           && Trim(table[p].children[i].id.name) in filters)
         <==> (exists i :: 0 <= i < |At(tree, p).children| && At(tree, p).children[i].kind.Section?
                           && Trim(At(tree, p).children[i].id.name) in filters)
    {
      Known(p);
      forall i | 0 <= i < |table[p].children|
        ensures table[p].children[i].kind == At(tree, p).children[i].kind
            && table[p].children[i].id == At(tree, p).children[i].id
      {
        KnownChild(p, i);
      }
    }

    lemma CompleteChildren(p: Path)
      requires Valid() && p in table
      ensures IsPath(tree, p)
      ensures (forall i :: 0 <= i < |table[p].children| ==> table[p].children[i].IsComplete())
          <==> AllComplete(At(tree, p).children)
    {
      Known(p);
      forall i | 0 <= i < |table[p].children|
        ensures table[p].children[i].IsComplete() == IsComplete(At(tree, p).children[i])
      {
        KnownChild(p, i);
      }
    }

    /** The object at a position looks like what the tree has there. */
    lemma Known(p: Path)
      requires Valid() && p in table
      ensures IsPath(tree, p)
      ensures var x := table[p];
        var t := At(tree, p);
        && x.id == t.id && x.kind == t.kind && x.state == t.state && |x.children| == |t.children|
        && x.IsComplete() == IsComplete(t) && x.IsOpen() == IsOpen(t)
        && (if p == [] then x.parent == null && t.kind.Section? else Parent(p) in table && x.parent == table[Parent(p)])
    {
      assert p in Objects();
      assert Labelled(tree, Objects(), p);
    }

    /** findChild() for the tracker at `p`: the first child with this position in the source, if any. */
    method FindChild(x: ITracker, ghost p: Path, id: NameAndLocation) returns (i: nat)
      requires Valid() && p in table && table[p] == x
      ensures IsPath(tree, p) && i == Machine.FindChild(At(tree, p).children, id)
      ensures i <= |x.children| == |At(tree, p).children|
    {
      Known(p);
      i := 0;
      while i < |x.children| && x.children[i].id != id
        invariant i <= |x.children|
        invariant forall j :: 0 <= j < i ==> At(tree, p).children[j].id != id
      {
        KnownChild(p, i);
        i := i + 1;
      }
      if i < |x.children| {
        KnownChild(p, i);
      }
    }

    /** Adds a new tracker below the current one. */
    method NewChild(id: NameAndLocation, kind: Kind) returns (tracker: ITracker, ghost q: Path)
      requires Valid()
      modifies this`tree, this`table, table.Values
      ensures tracker.ctx == this && fresh(tracker) && fresh(table.Values - old(table.Values))
      ensures tracker.Sits(q) && IsPath(old(tree), old(here)) && q == here + [|At(old(tree), old(here)).children|]
      ensures forall r :: r in old(table) ==> r in table && table[r] == old(table)[r]
      ensures tree == Machine.AddChild(old(tree), here, Tracker(id, kind, NotStarted, []))
    {
      hide Consistent;
      Known(here);
      tracker := new ITracker(id, kind, this, current);
      q := here + [|current.children|];
      AddChild(current, here, tracker);
    }

    /** The section tracker with this position in the source: found, or added below the current tracker. */
    method RegisterSection(id: NameAndLocation) returns (tracker: ITracker, ghost q: Path)
      requires Valid()
      modifies this`tree, this`table, this`fault, table.Values
      ensures tracker.Sits(q) && tracker.ctx == this && fresh(table.Values - old(table.Values))
      ensures forall r :: r in old(table) ==> r in table && table[r] == old(table)[r]
      ensures IsPath(old(tree), old(here)) && (View(), q) == Machine.RegisterSection(old(View()), id)
    {
      hide Consistent, Machine.RegisterSection;
      Known(here);
      var i := FindChild(current, here, id);
      RegisterCases(View(), id, i);
      if i == |current.children| {
        var filters := current.SectionFilters(here);
        tracker, q := NewChild(id, Section(NextFilters(filters)));
      } else {
        tracker, q := OldChild(i);
        if !tracker.kind.Section? {
          RaiseInternalError();
        }
      }
    }

    /** A child of the current tracker. */
    method OldChild(i: nat) returns (tracker: ITracker, ghost q: Path)
      requires Valid() && i < |current.children|
      ensures tracker.ctx == this && tracker.Sits(q) && q == here + [i]
      ensures IsPath(tree, here) && i < |At(tree, here).children| && tracker.kind == At(tree, here).children[i].kind
    {
      KnownChild(here, i);
      tracker, q := current.children[i], here + [i];
    }

    /** SectionTracker::acquire. */
    method AcquireSection(id: NameAndLocation) returns (tracker: ITracker, ghost q: Path)
      requires Valid()
      modifies this, table.Values
      ensures tracker.Sits(q) && tracker.ctx == this && fresh(table.Values - old(table.Values))
      ensures forall r :: r in old(table) ==> r in table && table[r] == old(table)[r]
      ensures IsPath(old(tree), old(here)) && (View(), q) == Machine.AcquireSection(old(View()), id)
    {
      hide Consistent;
      tracker, q := RegisterSection(id);
      Known(q);
      if !completed && !tracker.IsComplete() {
        tracker.Open(q);
      }
    }

    /** The generator tracker with this position in the source, if there is one: the current tracker itself
        or one of its children. */
    method FindGenerator(id: NameAndLocation) returns (tracker: ITracker?, ghost q: Path)
      requires Valid()
      ensures IsPath(tree, here) && (tracker != null, q) == Machine.FindGenerator(View(), id)
      ensures tracker != null ==> tracker.ctx == this && tracker.Sits(q)
    {
      hide Consistent;
      Known(here);
      tracker, q := current, here;
      if current.id != id {
        var i := FindChild(current, here, id);
        q := here + [i];
        if i < |current.children| {
          tracker, q := OldChild(i);
        } else {
          tracker := null;
        }
      }
    }

    /** GeneratorTracker::acquire, for the tracker found. */
    method AcquireGenerator(tracker: ITracker, ghost q: Path) returns (index: nat)
      requires tracker.ctx == this && tracker.Sits(q) && here <= q && IsPath(tree, here) && IsPath(tree, q)
      modifies this`tree, this`current, this`here, this`fault, table.Values
      ensures Valid() && table == old(table)
      ensures (View(), index) == Machine.ReuseGenerator(old(View()), q)
    {
      hide Consistent;
      Known(q);
      if !tracker.IsComplete() {
        tracker.Open(q);
      }
      index := Read(tracker, q);
    }

    /** createGeneratorTracker, and the first element of the new generator. */
    method CreateGenerator(id: NameAndLocation, size: nat) returns (index: nat)
      requires Valid()
      modifies this, table.Values
      ensures Valid() && fresh(table.Values - old(table.Values))
      ensures forall r :: r in old(table) ==> r in table && table[r] == old(table)[r]
      ensures IsPath(old(tree), old(here)) && (View(), index) == Machine.CreateGenerator(old(View()), id, size)
    {
      hide Consistent;
      var tracker, q := NewChild(id, Generator(size, 0));
      tracker.Open(q);
      index := Read(tracker, q);
    }

    /** GENERATE: reuses the generator tracker or creates it, and reads the generator's current element. */
    method Generate(id: NameAndLocation, size: nat) returns (index: nat)
      requires Valid()
      modifies this, table.Values
      ensures Valid() && fresh(table.Values - old(table.Values))
      ensures forall r :: r in old(table) ==> r in table && table[r] == old(table)[r]
      ensures IsPath(old(tree), old(here)) && (View(), index) == Machine.AcquireGenerator(old(View()), id, size)
    {
      hide Consistent, Machine.CreateGenerator, Machine.ReuseGenerator, Machine.FindGenerator;
      var tracker, q := FindGenerator(id);
      if tracker == null {
        index := CreateGenerator(id, size);
      } else {
        Known(q);
        index := AcquireGenerator(tracker, q);
      }
    }

    /** The element of a generator tracker; reading an exhausted generator is an error. */
    method Read(tracker: ITracker, ghost q: Path) returns (index: nat)
      requires tracker.ctx == this && tracker.Sits(q)
      modifies this`fault
      ensures Valid() && IsPath(tree, q) && (View(), index) == Machine.ReadGenerator(old(View()), q)
    {
      hide Consistent;
      Known(q);
      index := 0;
      if tracker.kind.Generator? {
        index := tracker.kind.index;
      }
      if tracker.kind.Section? || index >= tracker.kind.size {
        RaiseInternalError();
      }
    }

    /** m_runState = s, for the tracker at `p`. */
    method SetRunState(x: ITracker, ghost p: Path, s: CycleState)
      requires Valid() && p in table && table[p] == x
      modifies this`tree, x`state
      ensures Valid() && table == old(table)
      ensures tree == SetState(old(tree), p, s)
    {
      hide Consistent, SetAt;
      ghost var before := Objects();
      Known(p);
      Apart(p);
      x.state := s;
      tree := SetState(tree, p, s);
      KeepConsistent(old(tree), before, p, At(old(tree), p).(state := s), Objects());
    }

    /** Replaces the generator state of the tracker at `p`. */
    method SetKind(x: ITracker, ghost p: Path, k: Kind)
      requires Valid() && p in table && table[p] == x && p != []
      modifies this`tree, x`kind
      ensures Valid() && table == old(table)
      ensures IsPath(old(tree), p) && tree == SetAt(old(tree), p, At(old(tree), p).(kind := k))
    {
      hide Consistent, SetAt;
      ghost var before := Objects();
      Known(p);
      Apart(p);
      x.kind := k;
      tree := SetAt(tree, p, At(tree, p).(kind := k));
      KeepConsistent(old(tree), before, p, At(old(tree), p).(kind := k), Objects());
    }

    /** The table holds what `was` holds, perhaps without positions strictly below `p`. */
    ghost predicate Pruned(was: map<Path, ITracker>, p: Path)
      reads this`table
    {
      && (forall q :: q in table ==> q in was && table[q] == was[q])
      && (forall q :: q in was && !(p < q) ==> q in table)
    }

    /** m_children.clear(), for a tracker below which nothing is current. */
    method ClearChildren(x: ITracker, ghost p: Path)
      requires Valid() && p in table && table[p] == x && !(p < here)
      modifies this`tree, this`table, x`children
      ensures Valid() && p in table && table[p] == x && Pruned(old(table), p)
      ensures IsPath(old(tree), p) && tree == SetAt(old(tree), p, At(old(tree), p).(children := []))
    {
      hide Consistent, SetAt;
      ghost var before := Objects();
      Known(p);
      Apart(p);
      SelfNotBelow(p);
      x.children := [];
      table := Prune(table, p);
      tree := SetAt(tree, p, At(tree, p).(children := []));
      ClearConsistent(old(tree), before, p, At(old(tree), p).(children := []), Objects());
    }

    lemma SelfNotBelow(p: Path)
      ensures !(p < p) && !(p < [])
    {
    }

    ghost function Prune(was: map<Path, ITracker>, p: Path): (r: map<Path, ITracker>)
      ensures forall q :: q in r <==> q in was && !(p < q)
      ensures forall q :: q in r ==> r[q] == was[q]
    {
      map q | q in was && !(p < q) :: was[q]
    }

    lemma SamePlace(p: Path)
      requires Valid() && p in table
      ensures table[p] == current <==> here == p
    {
      assert Objects()[p].self == table[p] && Objects()[here].self == current;
    }

    lemma OnePlace(p: Path)
      requires Valid() && p in table && table[p] == current
      ensures here == p
    {
      assert Objects()[p].self == Objects()[here].self;
    }

    /** Distinct positions hold distinct objects. */
    lemma Apart(p: Path)
      requires Valid() && p in table
      ensures forall q :: q in table && q != p ==> table[q] != table[p]
    {
      forall q: Path | q in table && q != p ensures table[q] != table[p] {
        assert Objects()[q].self == table[q] && Objects()[p].self == table[p];
      }
    }

    /** addChild, for a tracker just made for the parent at `p`. */
    method AddChild(x: ITracker, ghost p: Path, child: ITracker)
      requires Valid() && p in table && table[p] == x
      requires child !in table.Values && child.ctx == this && child.parent == x && child.children == []
      modifies this`tree, this`table, x`children
      ensures Valid()
      ensures tree == Machine.AddChild(old(tree), p, Tracker(child.id, child.kind, child.state, []))
      ensures var q := p + [|At(old(tree), p).children|];
        q !in old(table) && table == old(table)[q := child]
    {
      ghost var n := |x.children|;
      ghost var before := Objects();
      ghost var fields := Fields(child, Label(child.id, child.kind, child.state, 0), [], x);
      Fresh(before, p, n);
      x.children := x.children + [child];
      tree := Machine.AddChild(tree, p, Tracker(child.id, child.kind, child.state, []));
      table := table[p + [n] := child];
      AddConsistent(old(tree), before, p, n, fields, Objects());
    }

    lemma Fresh(objects: map<Path, Fields>, p: Path, n: nat)
      requires Consistent(tree, objects) && p in objects && n == |objects[p].children|
      ensures p + [n] !in objects && n == |At(tree, p).children|
    {
      assert Labelled(tree, objects, p);
      Nested(tree, p, [n]);
    }
  }
}
