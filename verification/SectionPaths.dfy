/** Which combinations of generator values and sections the cycles of a test case go through. */
module SectionPaths {
  import opened TrackerTree
  import opened TestBody
  import opened TrackerMachine
  import opened TrackerRunTest
  import opened SectionFilters

  /** `x` takes one value of every generator it meets and enters one section at every level, down to a
      body without sections. */
  ghost predicate Complete(b: Body, x: Trace)
    decreases b
  {
    match b
    case Gen(id, size, rest) => x != [] && x[0].Value? && x[0].gen == id && x[0].index < size && Complete(rest, x[1..])
    case Subs(ss) =>
      if ss == [] then x == []
      else x != [] && x[0].Enter? && exists j :: 0 <= j < |ss| && x[0].id == ss[j].id && Complete(ss[j].body, x[1..])
  }

  /** `x` comes before `y`: a smaller value of an outer generator, or an earlier section, decides. */
  ghost predicate Before(b: Body, x: Trace, y: Trace)
    decreases b
  {
    x != [] && y != [] &&
    match b
    case Gen(id, size, rest) =>
      x[0].Value? && y[0].Value? && (x[0].index < y[0].index
          || (x[0].index == y[0].index && Before(rest, x[1..], y[1..])))
    case Subs(ss) =>
      exists i, j :: 0 <= i <= j < |ss| && x[0] == Enter(ss[i].id) && y[0] == Enter(ss[j].id)
                     && (i < j || Before(ss[i].body, x[1..], y[1..]))
  }

  lemma {:induction false} BeforeDiffers(b: Body, x: Trace, y: Trace, around: NameAndLocation)
    requires WellFormed(b, around) && Before(b, x, y)
    ensures x != y
    decreases b
  {
    match b
    case Gen(id, size, rest) =>
      if x[0].index == y[0].index {
        BeforeDiffers(rest, x[1..], y[1..], id);
      }
    case Subs(ss) =>
      var i, j :| 0 <= i <= j < |ss| && x[0] == Enter(ss[i].id) && y[0] == Enter(ss[j].id)
                  && (i < j || Before(ss[i].body, x[1..], y[1..]));
      if i == j {
        BeforeDiffers(ss[i].body, x[1..], y[1..], ss[i].id);
      }
  }

  /** The number of cycles: the product of the generators' sizes and the sum over the sections. */
  function Count(b: Body): (n: nat)
    decreases b, 1, 0
  {
    match b
    case Gen(_, size, rest) => size * Count(rest)
    case Subs(ss) => if ss == [] then 1 else CountSections(b, 0)
  }

  function CountSections(b: Body, i: nat): nat
    requires b.Subs?
    decreases b, 0, |b.sections| - i
  {
    if i >= |b.sections| then 0 else Count(b.sections[i].body) + CountSections(b, i + 1)
  }

  function Prepend(e: Event, ps: seq<Trace>): (r: seq<Trace>)
    ensures |r| == |ps| && forall k :: 0 <= k < |ps| ==> r[k] == [e] + ps[k]
  {
    seq(|ps|, k requires 0 <= k < |ps| => [e] + ps[k])
  }

  /** The complete paths of a body, in order. */
  function Paths(b: Body): (ps: seq<Trace>)
    ensures |ps| == Count(b)
    decreases b, 1, 0
  {
    match b
    case Gen(_, size, rest) => assert (size - 0) * Count(rest) == size * Count(rest); ValuePaths(b, 0)
    case Subs(ss) => if ss == [] then [[]] else PathsFrom(b, 0)
  }

  function ValuePaths(b: Body, from: nat): (ps: seq<Trace>)
    requires b.Gen? && from <= b.size
    ensures |ps| == (b.size - from) * Count(b.rest)
    decreases b, 0, b.size - from
  {
    if from == b.size then []
    else
      assert (b.size - from) * Count(b.rest) == Count(b.rest) + (b.size - from - 1) * Count(b.rest);
      Prepend(Value(b.id, from), Paths(b.rest)) + ValuePaths(b, from + 1)
  }

  function PathsFrom(b: Body, i: nat): (ps: seq<Trace>)
    requires b.Subs?
    ensures |ps| == CountSections(b, i)
    decreases b, 0, |b.sections| - i
  {
    if i >= |b.sections| then []
    else Prepend(Enter(b.sections[i].id), Paths(b.sections[i].body)) + PathsFrom(b, i + 1)
  }

  /** The paths of a body are its complete paths. */
  lemma {:induction false} PathsComplete(b: Body, x: Trace)
    ensures x in Paths(b) <==> Complete(b, x)
    decreases b, 1, 0
  {
    match b
    case Gen(id, size, rest) => ValuePathsComplete(b, 0, x);
    case Subs(ss) => PathsFromComplete(b, 0, x);
  }

  lemma PrependHas(e: Event, ps: seq<Trace>, x: Trace)
    ensures x in Prepend(e, ps) <==> x != [] && x[0] == e && x[1..] in ps
  {
    if x != [] && x[0] == e && x[1..] in ps {
      var k :| 0 <= k < |ps| && ps[k] == x[1..];
      assert Prepend(e, ps)[k] == x;
    }
  }

  lemma {:induction false} ValuePathsComplete(b: Body, from: nat, x: Trace)
    requires b.Gen? && from <= b.size
    ensures x in ValuePaths(b, from) <==> Complete(b, x) && from <= x[0].index
    decreases b, 0, b.size - from
  {
    if from < b.size {
      PrependHas(Value(b.id, from), Paths(b.rest), x);
      ValuePathsComplete(b, from + 1, x);
      if x != [] {
        PathsComplete(b.rest, x[1..]);
      }
    }
  }

  lemma {:induction false} PathsFromComplete(b: Body, i: nat, x: Trace)
    requires b.Subs?
    ensures x in PathsFrom(b, i) <==>
              x != [] && exists j :: i <= j < |b.sections| && x[0] == Enter(b.sections[j].id)
                                     && Complete(b.sections[j].body, x[1..])
    decreases b, 0, |b.sections| - i
  {
    if i < |b.sections| {
      PrependHas(Enter(b.sections[i].id), Paths(b.sections[i].body), x);
      PathsFromComplete(b, i + 1, x);
      if x != [] {
        PathsComplete(b.sections[i].body, x[1..]);
      }
    }
  }

  /** The paths come in lexicographic order, outer generators slowest. */
  lemma {:induction false} PathsSorted(b: Body, k: nat, l: nat)
    requires k < l < |Paths(b)|
    ensures Before(b, Paths(b)[k], Paths(b)[l])
    decreases b, 1, 0
  {
    match b
    case Gen(id, size, rest) => ValuePathsSorted(b, 0, k, l);
    case Subs(ss) => PathsFromSorted(b, 0, k, l);
  }

  lemma {:induction false} ValuePathsSorted(b: Body, from: nat, k: nat, l: nat)
    requires b.Gen? && from <= b.size && k < l < |ValuePaths(b, from)|
    ensures Before(b, ValuePaths(b, from)[k], ValuePaths(b, from)[l])
    decreases b, 0, b.size - from
  {
    var n := |Paths(b.rest)|;
    var ps := ValuePaths(b, from);
    var later := ValuePaths(b, from + 1);
    if l < n {
      PathsSorted(b.rest, k, l);
    } else if k < n {
      assert ps[l] == later[l - n] && ps[l] in later;
      ValuePathsComplete(b, from + 1, ps[l]);
    } else {
      ValuePathsSorted(b, from + 1, k - n, l - n);
    }
  }

  lemma {:induction false} PathsFromSorted(b: Body, i: nat, k: nat, l: nat)
    requires b.Subs? && k < l < |PathsFrom(b, i)|
    ensures Before(b, PathsFrom(b, i)[k], PathsFrom(b, i)[l])
    decreases b, 0, |b.sections| - i
  {
    var s := b.sections[i];
    var n := |Paths(s.body)|;
    var ps := PathsFrom(b, i);
    var later := PathsFrom(b, i + 1);
    if l < n {
      PathsSorted(s.body, k, l);
      assert ps[k][1..] == Paths(s.body)[k] && ps[l][1..] == Paths(s.body)[l];
    } else if k < n {
      assert ps[l] == later[l - n] && ps[l] in later;
      PathsFromComplete(b, i + 1, ps[l]);
    } else {
      PathsFromSorted(b, i + 1, k - n, l - n);
    }
  }

  /** The cycles that go through the paths `ps` after doing `pre`. */
  function Through(pre: Trace, ps: seq<Trace>): (cs: seq<Cycle>)
    ensures |cs| == |ps| && forall k :: 0 <= k < |ps| ==> cs[k] == Cycle(pre + ps[k], false)
  {
    seq(|ps|, k requires 0 <= k < |ps| => Cycle(pre + ps[k], false))
  }

  lemma ThroughStep(pre: Trace, e: Event, ps: seq<Trace>, qs: seq<Trace>)
    ensures Through(pre, Prepend(e, ps) + qs) == Through(pre + [e], ps) + Through(pre, qs)
  {
    forall k | 0 <= k < |ps| ensures pre + ([e] + ps[k]) == (pre + [e]) + ps[k] {}
  }

  lemma {:induction false} CutNever(d: nat, cs: seq<Cycle>, throws: Throws)
    requires forall e, t :: !throws(e, t)
    ensures Cut(d, cs, throws) == Cycles(cs, false)
    decreases |cs|
  {
    if cs != [] {
      CutNever(d, cs[1..], throws);
      assert [cs[0]] + cs[1..] == cs;
    }
  }

  /** When nothing throws, the cycles go through the paths. */
  lemma {:induction false} EnumerateThrough(b: Body, d: nat, pre: Trace, throws: Throws)
    requires forall e, t :: !throws(e, t)
    ensures Enumerate(b, [], d, pre, throws) == Through(pre, Paths(b))
    decreases b, 1, 0
  {
    match b
    case Gen(id, size, rest) => ValuesThrough(b, 0, d, pre, throws);
    case Subs(ss) =>
      SectionsThrough(b, 0, d, pre, throws, true);
      assert pre + [] == pre;
  }

  lemma {:induction false} ValuesThrough(b: Body, from: nat, d: nat, pre: Trace, throws: Throws)
    requires b.Gen? && from <= b.size && forall e, t :: !throws(e, t)
    ensures EnumerateValues(b, from, [], d, pre, throws) == Through(pre, ValuePaths(b, from))
    decreases b, 0, b.size - from
  {
    if from < b.size {
      EnumerateThrough(b.rest, d, pre + [Value(b.id, from)], throws);
      ValuesThrough(b, from + 1, d, pre, throws);
      ThroughStep(pre, Value(b.id, from), Paths(b.rest), ValuePaths(b, from + 1));
    }
  }

  lemma {:induction false} SectionsThrough(b: Body, i: nat, d: nat, pre: Trace, throws: Throws, again: bool)
    requires b.Subs? && forall e, t :: !throws(e, t)
    ensures EnumerateSections(b, i, [], d, pre, throws, again)
         == if i >= |b.sections| && again then [Cycle(pre, false)] else Through(pre, PathsFrom(b, i))
    decreases b, 0, |b.sections| - i
  {
    if i < |b.sections| {
      var s := b.sections[i];
      EnumerateThrough(s.body, d + 1, pre + [Enter(s.id)], throws);
      CutNever(d + 1, Enumerate(s.body, [], d + 1, pre + [Enter(s.id)], throws), throws);
      SectionsThrough(b, i + 1, d, pre, throws, false);
      ThroughStep(pre, Enter(s.id), Paths(s.body), PathsFrom(b, i + 1));
    }
  }

  /** When nothing throws and no filters are given, the test case is done after exactly Count(b) cycles.
      Each cycle goes through a complete path, every complete path is taken, and the cycles go through
      them in strictly increasing lexicographic order, so each of them once. */
  lemma EveryPathOnce(id: NameAndLocation, b: Body, throws: Throws, n: nat)
    requires WellFormed(b, id) && forall e, t :: !throws(e, t)
    ensures var (runs, done) := RunTest(StartRun([]), id, b, throws, n);
      && (done <==> n >= Count(b))
      && (forall k :: 0 <= k < |runs| ==> Complete(b, runs[k].trace) && !runs[k].ctx.fault)
      && (done ==> |runs| == Count(b) && forall x :: Complete(b, x) ==>
          exists k :: 0 <= k < |runs| && runs[k].trace == x)
      && (forall k, l :: 0 <= k < l < |runs| ==>
                         Before(b, runs[k].trace, runs[l].trace) && runs[k].trace != runs[l].trace)
  {
    hide Complete, Before, Paths, Enumerate, RunTest, StuckFree, WellFormed;
    var (runs, done) := RunTest(StartRun([]), id, b, throws, n);
    RunTestUnfiltered(id, b, throws, n);
    EnumerateThrough(b, 0, [], throws);
    var ps := Paths(b);
    assert forall k :: 0 <= k < |ps| ==> [] + ps[k] == ps[k];
    forall k | 0 <= k < |runs| ensures Complete(b, runs[k].trace) {
      PathsComplete(b, ps[k]);
    }
    forall k, l | 0 <= k < l < |runs| ensures Before(b, runs[k].trace, runs[l].trace)
        && runs[k].trace != runs[l].trace {
      PathsSorted(b, k, l);
      BeforeDiffers(b, ps[k], ps[l], id);
    }
    if done {
      forall x | Complete(b, x) ensures exists k :: 0 <= k < |runs| && runs[k].trace == x {
        PathsComplete(b, x);
      }
    }
  }
}
