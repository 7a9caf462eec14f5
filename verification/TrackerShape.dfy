/** How an update at one position changes what is found at every other position. */
module TrackerShape {
  import opened TrackerTree
  import opened TrackerPaths

  /** What a tracker holds besides the values of its children. */
  datatype Label = Label(id: NameAndLocation, kind: Kind, state: CycleState, width: nat)

  function LabelAt(t: Tracker, p: Path): Label
    requires IsPath(t, p)
  {
    var x := At(t, p);
    Label(x.id, x.kind, x.state, |x.children|)
  }

  /** Positions below `p` exist and look as before when the children are kept. */
  lemma {:induction false} SetKeeping(t: Tracker, p: Path, x: Tracker, q: Path)
    requires IsPath(t, p) && x.children == At(t, p).children
    ensures IsPath(SetAt(t, p, x), q) <==> IsPath(t, q)
    ensures IsPath(t, q) ==> LabelAt(SetAt(t, p, x), q) == if q == p then Label(x.id, x.kind, x.state, |x.children|)
        else LabelAt(t, q)
    decreases |p|
  {
    if p != [] && q != [] && q[0] == p[0] {
      SetKeeping(t.children[p[0]], p[1..], x, q[1..]);
      assert q == [q[0]] + q[1..] && p == [p[0]] + p[1..];
    }
  }

  /** Adding a childless child at the end adds one position. */
  lemma {:induction false} SetAdding(t: Tracker, p: Path, c: Tracker, q: Path)
    requires IsPath(t, p) && c.children == []
    ensures var n := |At(t, p).children|;
      var r := SetAt(t, p, At(t, p).(children := At(t, p).children + [c]));
      && (IsPath(r, q) <==> IsPath(t, q) || q == p + [n])
      && (q == p + [n] ==> LabelAt(r, q) == Label(c.id, c.kind, c.state, 0))
      && (IsPath(t, q) ==> q != p + [n] && LabelAt(r, q) == if q == p then LabelAt(t, p).(width := n + 1)
          else LabelAt(t, q))
    decreases |p|
  {
    var n := |At(t, p).children|;
    if p == [] {
      assert p + [n] == [n];
      var r := SetAt(t, p, t.(children := t.children + [c]));
      if q == [n] {
        assert At(r, q) == At(r.children[n], []);
      } else if q != [] {
        assert q == [q[0]] + q[1..];
      }
    } else if q != [] && q[0] == p[0] {
      SetAdding(t.children[p[0]], p[1..], c, q[1..]);
      assert q == [q[0]] + q[1..] && p == [p[0]] + p[1..];
      assert (p + [n])[1..] == p[1..] + [n];
    } else if q != [] {
      assert (p + [n])[0] == p[0];
    }
  }

  /** Dropping the children drops the positions strictly below. */
  lemma {:induction false} SetClearing(t: Tracker, p: Path, x: Tracker, q: Path)
    requires IsPath(t, p) && x.children == []
    ensures IsPath(SetAt(t, p, x), q) <==> IsPath(t, q) && !(p < q)
    ensures IsPath(t, q) && !(p < q) ==>
              LabelAt(SetAt(t, p, x), q) == if q == p then Label(x.id, x.kind, x.state, 0) else LabelAt(t, q)
    decreases |p|
  {
    if p != [] && q != [] && q[0] == p[0] {
      SetClearing(t.children[p[0]], p[1..], x, q[1..]);
      assert q == [q[0]] + q[1..] && p == [p[0]] + p[1..];
    }
  }

  /** A generator sees the filters its parent sees. */
  lemma {:induction false} FiltersOfParent(t: Tracker, p: Path, outer: seq<string>)
    requires IsPath(t, p) && p != [] && At(t, p).kind.Generator?
    ensures IsPath(t, Parent(p)) && FiltersAround(t, p, outer) == FiltersAround(t, Parent(p), outer)
    decreases |p|
  {
    if |p| > 1 {
      FiltersOfParent(t.children[p[0]], p[1..], if t.kind.Section? then t.kind.filters else outer);
      assert Parent(p)[1..] == Parent(p[1..]);
    }
  }

  lemma {:induction false} FiltersOfSection(t: Tracker, p: Path, outer: seq<string>)
    requires IsPath(t, p) && At(t, p).kind.Section?
    ensures FiltersAround(t, p, outer) == At(t, p).kind.filters
    decreases |p|
  {
    if p != [] {
      FiltersOfSection(t.children[p[0]], p[1..], if t.kind.Section? then t.kind.filters else outer);
    }
  }

  lemma KeptShape(t: Tracker, p: Path, x: Tracker)
    requires IsPath(t, p) && x.children == At(t, p).children
    ensures forall q :: IsPath(SetAt(t, p, x), q) <==> IsPath(t, q)
    ensures forall q :: IsPath(t, q) ==>
              LabelAt(SetAt(t, p, x), q) == if q == p then Label(x.id, x.kind, x.state, |x.children|) else LabelAt(t, q)
  {
    forall q ensures IsPath(SetAt(t, p, x), q) <==> IsPath(t, q) { SetKeeping(t, p, x, q); }
    forall q | IsPath(t, q)
      ensures LabelAt(SetAt(t, p, x), q) == if q == p then Label(x.id, x.kind, x.state, |x.children|) else LabelAt(t, q)
    {
      SetKeeping(t, p, x, q);
    }
  }

  lemma AddedShape(t: Tracker, p: Path, c: Tracker)
    requires IsPath(t, p) && c.children == []
    ensures var n := |At(t, p).children|;
      var r := SetAt(t, p, At(t, p).(children := At(t, p).children + [c]));
      && !IsPath(t, p + [n])
      && (forall q :: IsPath(r, q) <==> IsPath(t, q) || q == p + [n])
      && LabelAt(r, p + [n]) == Label(c.id, c.kind, c.state, 0)
      && (forall q :: IsPath(t, q) ==> LabelAt(r, q) == if q == p then LabelAt(t, p).(width := n + 1)
          else LabelAt(t, q))
  {
    var n := |At(t, p).children|;
    var r := SetAt(t, p, At(t, p).(children := At(t, p).children + [c]));
    SetAdding(t, p, c, p + [n]);
    forall q ensures IsPath(r, q) <==> IsPath(t, q) || q == p + [n] { SetAdding(t, p, c, q); }
    forall q | IsPath(t, q) ensures LabelAt(r, q) == if q == p then LabelAt(t, p).(width := n + 1) else LabelAt(t, q) {
      SetAdding(t, p, c, q);
    }
  }

  lemma ClearedShape(t: Tracker, p: Path, x: Tracker)
    requires IsPath(t, p) && x.children == []
    ensures var r := SetAt(t, p, x);
      && (forall q :: IsPath(r, q) <==> IsPath(t, q) && !(p < q))
      && (forall q :: IsPath(r, q) ==> LabelAt(r, q) == if q == p then Label(x.id, x.kind, x.state, 0)
          else LabelAt(t, q))
  {
    var r := SetAt(t, p, x);
    forall q: Path ensures IsPath(r, q) <==> IsPath(t, q) && !(p < q) { SetClearing(t, p, x, q); }
    forall q: Path | IsPath(r, q) ensures LabelAt(r, q) == if q == p then Label(x.id, x.kind, x.state, 0)
        else LabelAt(t, q) {
      SetClearing(t, p, x, q);
    }
  }
}
