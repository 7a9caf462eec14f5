/** Running with section filters is running without filters on the tree of sections that the filters keep. */
module SectionFilters {
  import opened TrackerTree
  import opened TestBody
  import opened TrackerMachine
  import opened TrackerRunTest

  /** The body without the sections its filters keep out. */
  function Prune(b: Body, filters: seq<string>): Body
    decreases b, 0
  {
    match b
    case Gen(id, size, rest) => Gen(id, size, Prune(rest, filters))
    case Subs(ss) => Subs(PruneSections(b, 0, filters))
  }

  function PruneSections(b: Body, i: nat, filters: seq<string>): (ps: seq<Sec>)
    requires b.Subs?
    decreases b, 0, |b.sections| - i
  {
    if i >= |b.sections| then []
    else
      var s := b.sections[i];
      var rest := PruneSections(b, i + 1, filters);
      if Admits(NextFilters(filters), s.id.name) then [Sec(s.id, Prune(s.body, NextFilters(filters)))] + rest else rest
  }

  lemma {:induction false} Shift(xs: seq<Sec>, ys: seq<Sec>, i: nat, d: nat, trace: Trace, throws: Throws, again: bool)
    ensures EnumerateSections(Subs(xs + ys), |xs| + i, [], d, trace, throws, again)
         == EnumerateSections(Subs(ys), i, [], d, trace, throws, again)
    decreases |ys| - i
  {
    if i < |ys| {
      var s := ys[i];
      assert (xs + ys)[|xs| + i] == s;
      var r := Cut(d + 1, Enumerate(s.body, [], d + 1, trace + [Enter(s.id)], throws), throws);
      Shift(xs, ys, i + 1, d, trace, throws, r.failed);
    }
  }

  /** The cycles under filters are the cycles of the pruned body. */
  lemma {:induction false} PruneEnumerates(b: Body, filters: seq<string>, d: nat, trace: Trace, throws: Throws)
    ensures Enumerate(b, filters, d, trace, throws) == Enumerate(Prune(b, filters), [], d, trace, throws)
    decreases b, 1, 0
  {
    match b
    case Gen(id, size, rest) => PruneValues(b, 0, filters, d, trace, throws);
    case Subs(ss) => PruneKept(b, 0, filters, d, trace, throws, true);
  }

  lemma {:induction false} PruneValues(b: Body, from: nat, filters: seq<string>, d: nat, trace: Trace, throws: Throws)
    requires b.Gen?
    ensures EnumerateValues(b, from, filters, d, trace, throws)
        == EnumerateValues(Prune(b, filters), from, [], d, trace, throws)
    decreases b, 0, b.size - from
  {
    if from < b.size {
      PruneEnumerates(b.rest, filters, d, trace + [Value(b.id, from)], throws);
      PruneValues(b, from + 1, filters, d, trace, throws);
    }
  }

  lemma {:induction false} PruneKept(b: Body, i: nat, filters: seq<string>, d: nat, trace: Trace, throws: Throws,
          again: bool)
    requires b.Subs?
    ensures EnumerateSections(b, i, filters, d, trace, throws, again)
         == EnumerateSections(Subs(PruneSections(b, i, filters)), 0, [], d, trace, throws, again)
    decreases b, 0, |b.sections| - i
  {
    if i < |b.sections| {
      var s := b.sections[i];
      var own := NextFilters(filters);
      if Admits(own, s.id.name) {
        PruneEnumerates(s.body, own, d + 1, trace + [Enter(s.id)], throws);
        var r := Cut(d + 1, Enumerate(s.body, own, d + 1, trace + [Enter(s.id)], throws), throws);
        PruneKept(b, i + 1, filters, d, trace, throws, r.failed);
        var p := Sec(s.id, Prune(s.body, own));
        var rest := PruneSections(b, i + 1, filters);
        Shift([p], rest, 0, d, trace, throws, r.failed);
        assert ([p] + rest)[0] == p;
        assert PruneSections(b, i, filters) == [p] + rest;
      } else {
        PruneKept(b, i + 1, filters, d, trace, throws, again);
      }
    }
  }

  /** The sections kept are sections of the body, in order. */
  lemma {:induction false} PruneSectionIds(b: Body, i: nat, filters: seq<string>)
    requires b.Subs? && i <= |b.sections| && WellFormedSections(b, i)
    ensures var ps := PruneSections(b, i, filters);
      && (forall j :: 0 <= j < |ps| ==> exists k :: i <= k < |b.sections| && ps[j].id == b.sections[k].id)
      && WellFormedSections(Subs(ps), 0)
    decreases b, 0, |b.sections| - i
  {
    if i < |b.sections| {
      var s := b.sections[i];
      PruneSectionIds(b, i + 1, filters);
      var rest := PruneSections(b, i + 1, filters);
      if Admits(NextFilters(filters), s.id.name) {
        PruneWellFormed(s.body, s.id, NextFilters(filters));
        var ps := PruneSections(b, i, filters);
        forall j, k | 0 <= j < k < |ps| ensures ps[j].id != ps[k].id {
          assert ps[k] == rest[k - 1];
          if j > 0 {
            assert ps[j] == rest[j - 1];
          }
        }
        forall j | 0 <= j < |ps|
          ensures WellFormed(ps[j].body, ps[j].id) && exists k :: i <= k < |b.sections| && ps[j].id == b.sections[k].id
        {
          if j > 0 {
            assert ps[j] == rest[j - 1];
          }
        }
      }
    }
  }

  /** The sections from `i` on are distinct and well-formed. */
  ghost predicate WellFormedSections(b: Body, i: nat)
    requires b.Subs?
  {
    && (forall j, k :: i <= j < k < |b.sections| ==> b.sections[j].id != b.sections[k].id)
    && (forall j :: i <= j < |b.sections| ==> WellFormed(b.sections[j].body, b.sections[j].id))
  }

  lemma {:induction false} PruneWellFormed(b: Body, around: NameAndLocation, filters: seq<string>)
    requires WellFormed(b, around)
    ensures WellFormed(Prune(b, filters), around)
    decreases b, 1, 0
  {
    match b
    case Gen(id, size, rest) => PruneWellFormed(rest, id, filters);
    case Subs(ss) => PruneSectionIds(b, 0, filters);
  }

  /** Without filters no generator is stuck. */
  lemma {:induction false} NoFiltersNoStuck(b: Body, under: bool)
    ensures StuckFree(b, [], under)
    decreases b
  {
    match b
    case Gen(_, _, rest) => NoFiltersNoStuck(rest, true);
    case Subs(ss) =>
      forall i | 0 <= i < |ss| ensures StuckFree(ss[i].body, [], false) {
        NoFiltersNoStuck(ss[i].body, false);
      }
  }

  /** Without filters a test case is done after the cycles that the enumeration lists. */
  lemma RunTestUnfiltered(id: NameAndLocation, b: Body, throws: Throws, n: nat)
    requires WellFormed(b, id)
    ensures var (runs, done) := RunTest(StartRun([]), id, b, throws, n);
      var cycles := Enumerate(b, [], 0, [], throws);
      && |runs| == Min(n, |cycles|)
      && (done <==> n >= |cycles|)
      && forall k :: 0 <= k < |runs| ==> runs[k].trace == cycles[k].trace && !runs[k].ctx.fault
  {
    hide RunTest, Enumerate, WellFormed, StuckFree, NoneWaits;
    var none: seq<string> := [];
    assert TestCaseFilters(none) == none;
    NoFiltersNoStuck(b, false);
    StuckFreeNoneWaits(b, none, throws);
    RunTestEnds(id, b, none, throws, n);
  }

  /** The filters `f1 .. fn` of the command line keep a section at depth `d` when `d > n`, when `fd` is empty,
      or when the trimmed name is one of `fd .. fn`. */
  predicate Keeps(filters: seq<string>, d: nat, name: string)
    requires d > 0
  {
    d > |filters| || filters[d - 1] == "" || Trim(name) in filters[d - 1..]
  }

  /** The body without the sections that are not kept; its own sections lie at depth `d`. */
  function Kept(b: Body, filters: seq<string>, d: nat): Body
    requires d > 0
    decreases b, 0
  {
    match b
    case Gen(id, size, rest) => Gen(id, size, Kept(rest, filters, d))
    case Subs(ss) => Subs(KeptSections(b, 0, filters, d))
  }

  function KeptSections(b: Body, i: nat, filters: seq<string>, d: nat): (ps: seq<Sec>)
    requires b.Subs? && d > 0
    decreases b, 0, |b.sections| - i
  {
    if i >= |b.sections| then []
    else
      var s := b.sections[i];
      var rest := KeptSections(b, i + 1, filters, d);
      if Keeps(filters, d, s.id.name) then [Sec(s.id, Kept(s.body, filters, d + 1))] + rest else rest
  }

  /** The filters a section at depth `d` inherits, where the test case itself has depth 0. */
  function FiltersAt(filters: seq<string>, d: nat): seq<string> {
    if d == 0 then TestCaseFilters(filters) else if d <= |filters| then filters[d - 1..] else []
  }

  lemma FiltersAtNext(filters: seq<string>, d: nat, name: string)
    ensures NextFilters(FiltersAt(filters, d)) == FiltersAt(filters, d + 1)
    ensures Admits(FiltersAt(filters, d + 1), name) <==> Keeps(filters, d + 1, name)
  {
    if d == 0 {
      assert filters != [] ==> TestCaseFilters(filters)[1..] == filters;
      assert filters[0..] == filters;
    } else if d < |filters| {
      assert filters[d - 1..][1..] == filters[d..];
    }
  }

  /** Passing the filters on from section to section keeps the sections that the filters keep by their depth. */
  lemma {:induction false} PruneByDepth(b: Body, filters: seq<string>, d: nat)
    ensures Prune(b, FiltersAt(filters, d)) == Kept(b, filters, d + 1)
    decreases b, 1, 0
  {
    match b
    case Gen(id, size, rest) => PruneByDepth(rest, filters, d);
    case Subs(ss) => PruneSectionsByDepth(b, 0, filters, d);
  }

  lemma {:induction false} PruneSectionsByDepth(b: Body, i: nat, filters: seq<string>, d: nat)
    requires b.Subs?
    ensures PruneSections(b, i, FiltersAt(filters, d)) == KeptSections(b, i, filters, d + 1)
    decreases b, 0, |b.sections| - i
  {
    hide FiltersAt, NextFilters, Admits, Keeps;
    if i < |b.sections| {
      var s := b.sections[i];
      FiltersAtNext(filters, d, s.id.name);
      PruneByDepth(s.body, filters, d + 1);
      PruneSectionsByDepth(b, i + 1, filters, d);
    }
  }

  /** Unless a generator waits for ever, a filtered run and the unfiltered run of the body that the filters keep
      take the same number of cycles, and each cycle enters the same sections with the same generator values. */
  lemma FilteredRunIsPrunedRun(id: NameAndLocation, b: Body, filters: seq<string>, throws: Throws, n: nat)
    requires WellFormed(b, id)
        && NoneWaits(b, TestCaseFilters(filters), Enumerate(b, TestCaseFilters(filters), 0, [], throws))
    ensures var (runs, done) := RunTest(StartRun(filters), id, b, throws, n);
      var (pruned, done') := RunTest(StartRun([]), id, Kept(b, filters, 1), throws, n);
      && done == done' && |runs| == |pruned|
      && forall k :: 0 <= k < |runs| ==> runs[k].trace == pruned[k].trace
  {
    hide RunTest, Enumerate, Kept, Prune, WellFormed, NoneWaits;
    var p := Kept(b, filters, 1);
    PruneByDepth(b, filters, 0);
    PruneWellFormed(b, id, TestCaseFilters(filters));
    PruneEnumerates(b, TestCaseFilters(filters), 0, [], throws);
    RunTestEnds(id, b, filters, throws, n);
    RunTestUnfiltered(id, p, throws, n);
  }
}
