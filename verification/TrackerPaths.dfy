/** Positions in a tree of trackers, which stand for pointers to trackers, and updates at a position. */
module TrackerPaths {
  import opened TrackerTree

  type Path = seq<nat>

  predicate IsPath(t: Tracker, p: Path)
    decreases |p|
  {
    p == [] || (p[0] < |t.children| && IsPath(t.children[p[0]], p[1..]))
  }

  function At(t: Tracker, p: Path): Tracker
    requires IsPath(t, p)
    decreases |p|
  {
    if p == [] then t else At(t.children[p[0]], p[1..])
  }

  function SetAt(t: Tracker, p: Path, x: Tracker): (r: Tracker)
    requires IsPath(t, p)
    ensures IsPath(r, p) && At(r, p) == x
    ensures p != [] ==> r == t.(children := r.children)
    decreases |p|
  {
    if p == [] then x else t.(children := t.children[p[0] := SetAt(t.children[p[0]], p[1..], x)])
  }

  function Parent(p: Path): Path
    requires p != []
  {
    p[..|p| - 1]
  }

  lemma {:induction false} PrefixIsPath(t: Tracker, p: Path, k: nat)
    requires IsPath(t, p) && k <= |p|
    ensures IsPath(t, p[..k])
    decreases |p|
  {
    if k > 0 {
      PrefixIsPath(t.children[p[0]], p[1..], k - 1);
      assert p[..k][1..] == p[1..][..k - 1];
    }
  }

  lemma {:induction false} SetAtAt(t: Tracker, p: Path)
    requires IsPath(t, p)
    ensures SetAt(t, p, At(t, p)) == t
    decreases |p|
  {
    if p != [] {
      SetAtAt(t.children[p[0]], p[1..]);
    }
  }

  lemma {:induction false} SetAtTwice(t: Tracker, p: Path, x: Tracker, y: Tracker)
    requires IsPath(t, p)
    ensures SetAt(SetAt(t, p, x), p, y) == SetAt(t, p, y)
    decreases |p|
  {
    if p != [] {
      SetAtTwice(t.children[p[0]], p[1..], x, y);
    }
  }

  /** Going to `p` and on to `q` is going to `p + q`. */
  lemma {:induction false} Nested(t: Tracker, p: Path, q: Path)
    requires IsPath(t, p)
    ensures IsPath(t, p + q) <==> IsPath(At(t, p), q)
    ensures IsPath(t, p + q) ==> At(t, p + q) == At(At(t, p), q)
    decreases |p|
  {
    if p == [] {
      assert p + q == q;
    } else {
      assert (p + q)[1..] == p[1..] + q;
      Nested(t.children[p[0]], p[1..], q);
    }
  }

  lemma {:induction false} NestedSet(t: Tracker, p: Path, q: Path, x: Tracker)
    requires IsPath(t, p) && IsPath(t, p + q) && IsPath(At(t, p), q)
    ensures SetAt(t, p + q, x) == SetAt(t, p, SetAt(At(t, p), q, x))
    decreases |p|
  {
    if p == [] {
      assert p + q == q;
    } else {
      assert (p + q)[1..] == p[1..] + q;
      NestedSet(t.children[p[0]], p[1..], q, x);
    }
  }

  /** An update at `p` changes nothing in the trackers strictly above but their children. */
  lemma {:induction false} AboveSet(t: Tracker, p: Path, x: Tracker, k: nat)
    requires IsPath(t, p) && k < |p|
    ensures IsPath(t, p[..k]) && IsPath(SetAt(t, p, x), p[..k])
    ensures At(SetAt(t, p, x), p[..k]) == At(t, p[..k]).(children := At(SetAt(t, p, x), p[..k]).children)
    decreases |p|
  {
    if k > 0 {
      AboveSet(t.children[p[0]], p[1..], x, k - 1);
      assert p[..k][1..] == p[1..][..k - 1];
    }
  }

  function SetState(t: Tracker, p: Path, s: CycleState): (r: Tracker)
    requires IsPath(t, p)
    ensures forall q :: IsPath(t, q) ==> IsPath(r, q)
  {
    var r := SetAt(t, p, At(t, p).(state := s));
    assert forall q :: IsPath(t, q) ==> IsPath(r, q) by {
      forall q | IsPath(t, q) ensures IsPath(r, q) { StateKeepsPath(t, p, s, q); }
    }
    r
  }

  lemma {:induction false} StateKeepsPath(t: Tracker, p: Path, s: CycleState, q: Path)
    requires IsPath(t, p) && IsPath(t, q)
    ensures IsPath(SetAt(t, p, At(t, p).(state := s)), q)
    decreases |p|
  {
    if p != [] && q != [] && p[0] == q[0] {
      StateKeepsPath(t.children[p[0]], p[1..], s, q[1..]);
    }
  }

  /** The filters of the nearest section at or above `p`, given those of the nearest one above `t`. */
  function FiltersAround(t: Tracker, p: Path, outer: seq<string>): seq<string>
    requires IsPath(t, p)
    decreases |p|
  {
    var own := if t.kind.Section? then t.kind.filters else outer;
    if p == [] then own else FiltersAround(t.children[p[0]], p[1..], own)
  }

  lemma {:induction false} FiltersSetAt(t: Tracker, p: Path, x: Tracker, outer: seq<string>)
    requires IsPath(t, p)
    requires x.kind.Section? == At(t, p).kind.Section?
    requires x.kind.Section? ==> x.kind == At(t, p).kind
    ensures FiltersAround(SetAt(t, p, x), p, outer) == FiltersAround(t, p, outer)
    decreases |p|
  {
    if p != [] {
      FiltersSetAt(t.children[p[0]], p[1..], x, if t.kind.Section? then t.kind.filters else outer);
    }
  }
}
