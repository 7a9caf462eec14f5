/** Which paths a test case still goes through when its sections throw. */
module ThrowingSections {
  import opened TrackerTree
  import opened TestBody
  import opened TrackerMachine
  import opened TrackerRunTest
  import opened SectionFilters
  import opened SectionPaths
  import opened SectionUnwinding

  /** The cycles a section at depth `d` would have, entered after `pre`, if it never threw itself. */
  function Own(s: Sec, d: nat, pre: Trace, throws: Throws): seq<Cycle> {
    Enumerate(s.body, [], d, pre + [Enter(s.id)], throws)
  }

  /** A section with these cycles of its own throws in one that is not the last of them. */
  ghost predicate Early(d: nat, cs: seq<Cycle>, throws: Throws) {
    exists k :: 0 <= k < |cs| - 1 && !cs[k].thrown && throws(d, cs[k].trace)
  }

  /** It throws in the last of them, and so fails. */
  predicate Late(d: nat, cs: seq<Cycle>, throws: Throws) {
    cs != [] && !cs[|cs| - 1].thrown && throws(d, cs[|cs| - 1].trace)
  }

  /** No section of the body throws before the last cycle of its own. */
  ghost predicate Patient(b: Body, d: nat, pre: Trace, throws: Throws)
    decreases b
  {
    match b
    case Gen(id, size, rest) => forall v: nat :: v < size ==> Patient(rest, d, pre + [Value(id, v)], throws)
    case Subs(ss) =>
      forall i :: 0 <= i < |ss| ==>
                    && !Early(d + 1, Own(ss[i], d + 1, pre, throws), throws)
                    && Patient(ss[i].body, d + 1, pre + [Enter(ss[i].id)], throws)
  }

  /** How often a body (the test case's included) is entered whose last section then fails. */
  function LastFails(b: Body, d: nat, pre: Trace, throws: Throws): nat
    decreases b, 1, 0
  {
    match b
    case Gen(_, _, _) => LastFailsValues(b, 0, d, pre, throws)
    case Subs(ss) =>
      LastFailsBelow(b, 0, d, pre, throws)
      + (if ss != [] && Late(d + 1, Own(ss[|ss| - 1], d + 1, pre, throws), throws) then 1 else 0)
  }

  function LastFailsValues(b: Body, from: nat, d: nat, pre: Trace, throws: Throws): nat
    requires b.Gen?
    decreases b, 0, b.size - from
  {
    if from >= b.size then 0
    else LastFails(b.rest, d, pre + [Value(b.id, from)], throws) + LastFailsValues(b, from + 1, d, pre, throws)
  }

  function LastFailsBelow(b: Body, i: nat, d: nat, pre: Trace, throws: Throws): nat
    requires b.Subs?
    decreases b, 0, |b.sections| - i
  {
    if i >= |b.sections| then 0
    else
      LastFails(b.sections[i].body, d + 1, pre + [Enter(b.sections[i].id)], throws)
      + LastFailsBelow(b, i + 1, d, pre, throws)
  }

  /** The cycle goes through a complete path of the body that was entered after `pre`. */
  ghost predicate Full(b: Body, pre: Trace, c: Cycle) {
    pre <= c.trace && Complete(b, c.trace[|pre|..])
  }

  /** The cycles that go through a complete path of `b` below `pre`. */
  ghost function FullCycles(b: Body, pre: Trace, cs: seq<Cycle>): seq<Trace>
  {
    if cs == [] then [] else (if Full(b, pre, cs[0]) then [cs[0].trace] else []) + FullCycles(b, pre, cs[1..])
  }

  lemma {:induction false} FullConcat(b: Body, pre: Trace, cs: seq<Cycle>, ds: seq<Cycle>)
    ensures FullCycles(b, pre, cs + ds) == FullCycles(b, pre, cs) + FullCycles(b, pre, ds)
    decreases |cs|
  {
    hide Full;
    if cs == [] {
      assert cs + ds == ds;
    } else {
      assert (cs + ds)[1..] == cs[1..] + ds;
      FullConcat(b, pre, cs[1..], ds);
    }
  }

  lemma {:induction false} FullHas(b: Body, pre: Trace, cs: seq<Cycle>, t: Trace)
    ensures t in FullCycles(b, pre, cs) <==> exists k :: 0 <= k < |cs| && Full(b, pre, cs[k]) && cs[k].trace == t
    decreases |cs|
  {
    hide Full;
    if cs != [] {
      FullHas(b, pre, cs[1..], t);
      if t in FullCycles(b, pre, cs) && t in FullCycles(b, pre, cs[1..]) {
        var k :| 0 <= k < |cs[1..]| && Full(b, pre, cs[1..][k]) && cs[1..][k].trace == t;
        assert cs[k + 1] == cs[1..][k];
      }
      if k :| 0 <= k < |cs| && Full(b, pre, cs[k]) && cs[k].trace == t {
        assert k > 0 ==> cs[k] == cs[1..][k - 1];
      }
    }
  }

  /** Cutting keeps the traces, and only marks the last cycle kept as thrown. */
  lemma {:induction false} CutKeeps(d: nat, cs: seq<Cycle>, throws: Throws)
    ensures var r := Cut(d, cs, throws);
      && (forall k :: 0 <= k < |r.list| ==> r.list[k].trace == cs[k].trace)
      && (forall k :: 0 <= k < |r.list| - 1 ==> r.list[k] == cs[k])
      && (r.failed ==>
          r.list != [] && r.list[|r.list| - 1].thrown && !cs[|r.list| - 1].thrown && throws(d, cs[|r.list| - 1].trace))
      && (!r.failed ==> r.list == cs)
      && (|r.list| < |cs| ==> r.failed)
    decreases |cs|
  {
    if cs != [] {
      CutKeeps(d, cs[1..], throws);
      assert cs == [cs[0]] + cs[1..];
    }
  }

  /** Without an early exception all of a section's own cycles are kept, and it fails in the last one or not at all. */
  lemma CutPatient(d: nat, cs: seq<Cycle>, throws: Throws)
    requires !Early(d, cs, throws)
    ensures var r := Cut(d, cs, throws);
      |r.list| == |cs| && r.failed == Late(d, cs, throws)
  {
    CutKeeps(d, cs, throws);
    var r := Cut(d, cs, throws);
    if r.failed {
      assert |r.list| - 1 >= |cs| - 1;
    } else if Late(d, cs, throws) {
      CutFails(d, cs, |cs| - 1, throws);
    }
  }

  lemma {:induction false} CutFails(d: nat, cs: seq<Cycle>, k: nat, throws: Throws)
    requires k < |cs| && !cs[k].thrown && throws(d, cs[k].trace)
    ensures Cut(d, cs, throws).failed && |Cut(d, cs, throws).list| <= k + 1
    decreases |cs|
  {
    if !(!cs[0].thrown && throws(d, cs[0].trace)) {
      assert cs[1..][k - 1] == cs[k];
      CutFails(d, cs[1..], k - 1, throws);
    }
  }

  /** For a cycle that enters the section at `i`, it is the same to be full in the body and in that section. */
  lemma FullInside(b: Body, i: nat, around: NameAndLocation, pre: Trace, c: Cycle)
    requires b.Subs? && i < |b.sections| && WellFormed(b, around) && pre + [Enter(b.sections[i].id)] <= c.trace
    ensures pre <= c.trace && (Full(b, pre, c) <==> Full(b.sections[i].body, pre + [Enter(b.sections[i].id)], c))
  {
    var inner := pre + [Enter(b.sections[i].id)];
    var t := c.trace[|pre|..];
    assert inner[|pre|] == Enter(b.sections[i].id) && pre == inner[..|pre|];
    assert t[0] == Enter(b.sections[i].id) && t[1..] == c.trace[|inner|..];
  }

  lemma FullValue(b: Body, v: nat, pre: Trace, c: Cycle)
    requires b.Gen? && v < b.size && pre + [Value(b.id, v)] <= c.trace
    ensures pre <= c.trace && (Full(b, pre, c) <==> Full(b.rest, pre + [Value(b.id, v)], c))
  {
    var inner := pre + [Value(b.id, v)];
    var t := c.trace[|pre|..];
    assert inner[|pre|] == Value(b.id, v) && pre == inner[..|pre|];
    assert t[0] == Value(b.id, v) && t[1..] == c.trace[|inner|..];
  }

  /** The cycles go on from `pre`, and every one is full that does not follow one ended by an exception. */
  ghost predicate Linked(b: Body, pre: Trace, cs: seq<Cycle>) {
    && (forall k :: 0 <= k < |cs| ==> pre <= cs[k].trace)
    && (forall k :: 0 < k < |cs| && !cs[k - 1].thrown ==> Full(b, pre, cs[k]))
  }

  ghost predicate StartsFull(b: Body, pre: Trace, cs: seq<Cycle>) {
    cs != [] && Full(b, pre, cs[0])
  }

  lemma LinkedJoin(b: Body, pre: Trace, cs: seq<Cycle>, ds: seq<Cycle>)
    requires Linked(b, pre, cs) && Linked(b, pre, ds) && StartsFull(b, pre, cs)
    requires ds != [] && !cs[|cs| - 1].thrown ==> StartsFull(b, pre, ds)
    ensures Linked(b, pre, cs + ds) && StartsFull(b, pre, cs + ds)
  {
    hide Full;
    var all := cs + ds;
    forall k | 0 <= k < |all| ensures pre <= all[k].trace && (k > 0 && !all[k - 1].thrown ==> Full(b, pre, all[k])) {
      if k >= |cs| {
        assert all[k] == ds[k - |cs|];
        assert k > |cs| ==> all[k - 1] == ds[k - |cs| - 1];
      }
    }
  }

  lemma {:induction false} EnumerateLinked(b: Body, around: NameAndLocation, d: nat, pre: Trace, throws: Throws)
    requires WellFormed(b, around)
    ensures var cs := Enumerate(b, [], d, pre, throws);
      Linked(b, pre, cs) && StartsFull(b, pre, cs)
    decreases b, 1, 0
  {
    match b
    case Gen(id, size, rest) => ValuesLinked(b, around, 0, d, pre, throws);
    case Subs(ss) =>
      if ss == [] {
        assert Enumerate(b, [], d, pre, throws) == [Cycle(pre, false)];
      } else {
        SectionsLinked(b, around, 0, d, pre, throws, true);
      }
  }

  lemma {:induction false} ValuesLinked(b: Body, around: NameAndLocation, from: nat, d: nat, pre: Trace, throws: Throws)
    requires b.Gen? && WellFormed(b, around) && from <= b.size
    ensures var cs := EnumerateValues(b, from, [], d, pre, throws);
      Linked(b, pre, cs) && if from < b.size then StartsFull(b, pre, cs) else cs == []
    decreases b, 0, b.size - from
  {
    hide Linked, StartsFull, Enumerate;
    if from < b.size {
      var cs := Enumerate(b.rest, [], d, pre + [Value(b.id, from)], throws);
      EnumerateLinked(b.rest, b.id, d, pre + [Value(b.id, from)], throws);
      ValuesLinked(b, around, from + 1, d, pre, throws);
      LinkedValue(b, from, pre, cs);
      LinkedJoin(b, pre, cs, EnumerateValues(b, from + 1, [], d, pre, throws));
    } else {
      NoneLinked(b, pre);
    }
  }

  lemma NoneLinked(b: Body, pre: Trace)
    ensures Linked(b, pre, []) && FullCycles(b, pre, []) == []
  {
  }

  lemma LinkedValue(b: Body, v: nat, pre: Trace, cs: seq<Cycle>)
    requires b.Gen? && v < b.size
    requires Linked(b.rest, pre + [Value(b.id, v)], cs) && StartsFull(b.rest, pre + [Value(b.id, v)], cs)
    ensures Linked(b, pre, cs) && StartsFull(b, pre, cs)
  {
    hide Full;
    forall k | 0 <= k < |cs| ensures pre <= cs[k].trace
        && (Full(b, pre, cs[k]) <==> Full(b.rest, pre + [Value(b.id, v)], cs[k])) {
      FullValue(b, v, pre, cs[k]);
    }
  }

  /** The cycles of a section, cut at the first in which it throws, as cycles of the body around it. */
  lemma LinkedSection(b: Body, i: nat, around: NameAndLocation, d: nat, pre: Trace, cs: seq<Cycle>, throws: Throws)
    requires b.Subs? && i < |b.sections| && WellFormed(b, around)
    requires var inner := pre + [Enter(b.sections[i].id)];
      Linked(b.sections[i].body, inner, cs) && StartsFull(b.sections[i].body, inner, cs)
    ensures var r := Cut(d, cs, throws);
      && Linked(b, pre, r.list) && StartsFull(b, pre, r.list)
      && (r.failed ==> r.list[|r.list| - 1].thrown)
      && forall k :: 0 <= k < |r.list| ==> pre + [Enter(b.sections[i].id)] <= r.list[k].trace
  {
    hide Full, Cut, WellFormed;
    var inner := pre + [Enter(b.sections[i].id)];
    var list := Cut(d, cs, throws).list;
    CutKeeps(d, cs, throws);
    forall k | 0 <= k < |list| ensures pre <= list[k].trace
        && (Full(b, pre, list[k]) <==> Full(b.sections[i].body, inner, cs[k])) {
      FullInside(b, i, around, pre, list[k]);
      SameFull(b.sections[i].body, inner, list[k], cs[k]);
    }
  }

  lemma SameFull(b: Body, pre: Trace, c: Cycle, c': Cycle)
    requires c.trace == c'.trace
    ensures Full(b, pre, c) <==> Full(b, pre, c')
  {
  }

  lemma {:induction false} SectionsLinked(b: Body, around: NameAndLocation, i: nat, d: nat, pre: Trace, throws: Throws,
          again: bool)
    requires b.Subs? && WellFormed(b, around)
    ensures var cs := EnumerateSections(b, i, [], d, pre, throws, again);
      && Linked(b, pre, cs)
      && if i < |b.sections| then StartsFull(b, pre, cs) else cs == if again then [Cycle(pre, false)] else []
    decreases b, 0, |b.sections| - i
  {
    hide Linked, StartsFull, Enumerate, Cut, WellFormed;
    if i < |b.sections| {
      var s := b.sections[i];
      var cs := Own(s, d + 1, pre, throws);
      var r := Cut(d + 1, cs, throws);
      OwnLinked(b, i, around, d, pre, throws);
      LinkedSection(b, i, around, d + 1, pre, cs, throws);
      SectionsLinked(b, around, i + 1, d, pre, throws, r.failed);
      LinkedJoin(b, pre, r.list, EnumerateSections(b, i + 1, [], d, pre, throws, r.failed));
    } else {
      OneLinked(b, pre, again);
    }
  }

  lemma OneLinked(b: Body, pre: Trace, again: bool)
    ensures Linked(b, pre, if again then [Cycle(pre, false)] else [])
  {
  }

  lemma {:induction false} OwnLinked(b: Body, i: nat, around: NameAndLocation, d: nat, pre: Trace, throws: Throws)
    requires b.Subs? && i < |b.sections| && WellFormed(b, around)
    ensures var inner := pre + [Enter(b.sections[i].id)];
      var cs := Own(b.sections[i], d + 1, pre, throws);
      Linked(b.sections[i].body, inner, cs) && StartsFull(b.sections[i].body, inner, cs)
    decreases b, 0, 0
  {
    hide Linked, StartsFull;
    EnumerateLinked(b.sections[i].body, b.sections[i].id, d + 1, pre + [Enter(b.sections[i].id)], throws);
  }

  function Traces(pre: Trace, ps: seq<Trace>): (ts: seq<Trace>)
    ensures |ts| == |ps| && forall k :: 0 <= k < |ps| ==> ts[k] == pre + ps[k]
  {
    seq(|ps|, k requires 0 <= k < |ps| => pre + ps[k])
  }

  lemma TracesFromStart(ps: seq<Trace>)
    ensures Traces([], ps) == ps
  {
    forall k | 0 <= k < |ps| ensures [] + ps[k] == ps[k] {}
  }

  lemma TracesStep(pre: Trace, e: Event, ps: seq<Trace>, qs: seq<Trace>)
    ensures Traces(pre, Prepend(e, ps) + qs) == Traces(pre + [e], ps) + Traces(pre, qs)
  {
    forall k | 0 <= k < |ps| ensures pre + ([e] + ps[k]) == (pre + [e]) + ps[k] {}
  }

  lemma {:induction false} SameFullCycles(b: Body, pre: Trace, cs: seq<Cycle>, b': Body, pre': Trace, ds: seq<Cycle>)
    requires |cs| == |ds|
    requires forall k :: 0 <= k < |cs| ==> cs[k].trace == ds[k].trace && (Full(b, pre, cs[k]) <==>
        Full(b', pre', ds[k]))
    ensures FullCycles(b, pre, cs) == FullCycles(b', pre', ds)
    decreases |cs|
  {
    hide Full;
    if cs != [] {
      forall k | 0 <= k < |cs[1..]|
        ensures cs[1..][k].trace == ds[1..][k].trace && (Full(b, pre, cs[1..][k]) <==> Full(b', pre', ds[1..][k]))
      {
        assert cs[1..][k] == cs[k + 1] && ds[1..][k] == ds[k + 1];
      }
      SameFullCycles(b, pre, cs[1..], b', pre', ds[1..]);
    }
  }

  lemma {:induction false} FullCyclesOfValue(b: Body, v: nat, pre: Trace, cs: seq<Cycle>)
    requires b.Gen? && v < b.size && Linked(b.rest, pre + [Value(b.id, v)], cs)
    ensures FullCycles(b, pre, cs) == FullCycles(b.rest, pre + [Value(b.id, v)], cs)
  {
    hide Full;
    forall k | 0 <= k < |cs| ensures Full(b, pre, cs[k]) <==> Full(b.rest, pre + [Value(b.id, v)], cs[k]) {
      FullValue(b, v, pre, cs[k]);
    }
    SameFullCycles(b, pre, cs, b.rest, pre + [Value(b.id, v)], cs);
  }

  lemma {:induction false} FullCyclesOfSection(b: Body, i: nat, around: NameAndLocation, pre: Trace, list: seq<Cycle>,
          cs: seq<Cycle>)
    requires b.Subs? && i < |b.sections| && WellFormed(b, around)
    requires |list| == |cs| && forall k :: 0 <= k < |cs| ==> list[k].trace == cs[k].trace
    requires Linked(b.sections[i].body, pre + [Enter(b.sections[i].id)], cs)
    ensures FullCycles(b, pre, list) == FullCycles(b.sections[i].body, pre + [Enter(b.sections[i].id)], cs)
  {
    hide Full;
    var inner := pre + [Enter(b.sections[i].id)];
    forall k | 0 <= k < |cs| ensures Full(b, pre, list[k]) <==> Full(b.sections[i].body, inner, cs[k]) {
      FullInside(b, i, around, pre, list[k]);
      SameFull(b.sections[i].body, inner, list[k], cs[k]);
    }
    SameFullCycles(b, pre, list, b.sections[i].body, inner, cs);
  }

  /** If no section throws before the last cycle of its own: there is one more cycle each time the last section of
      a body fails, and the full cycles go through the complete paths in order, each once. */
  lemma {:induction false} PatientCycles(b: Body, around: NameAndLocation, d: nat, pre: Trace, throws: Throws)
    requires WellFormed(b, around) && Patient(b, d, pre, throws)
    ensures var cs := Enumerate(b, [], d, pre, throws);
      && |cs| == Count(b) + LastFails(b, d, pre, throws)
      && FullCycles(b, pre, cs) == Traces(pre, Paths(b))
    decreases b, 1, 0
  {
    hide Complete;
    match b
    case Gen(id, size, rest) => PatientValues(b, around, 0, d, pre, throws);
    case Subs(ss) =>
      if ss == [] {
        assert Enumerate(b, [], d, pre, throws) == [Cycle(pre, false)];
        NoSections(b, pre);
      } else {
        PatientSections(b, around, 0, d, pre, throws, true);
      }
  }

  lemma NoSections(b: Body, pre: Trace)
    requires b == Subs([])
    ensures FullCycles(b, pre, [Cycle(pre, false)]) == Traces(pre, Paths(b))
  {
    assert Full(b, pre, Cycle(pre, false));
    assert FullCycles(b, pre, [Cycle(pre, false)]) == [pre] + FullCycles(b, pre, []);
    assert pre + [] == pre;
  }

  lemma {:induction false} PatientValues(b: Body, around: NameAndLocation, from: nat, d: nat, pre: Trace,
          throws: Throws)
    requires b.Gen? && WellFormed(b, around) && Patient(b, d, pre, throws) && from <= b.size
    ensures var cs := EnumerateValues(b, from, [], d, pre, throws);
      && |cs| == (b.size - from) * Count(b.rest) + LastFailsValues(b, from, d, pre, throws)
      && FullCycles(b, pre, cs) == Traces(pre, ValuePaths(b, from))
    decreases b, 0, b.size - from
  {
    hide Complete, Paths, LastFails, FullCycles, Count, Enumerate;
    if from < b.size {
      var inner := pre + [Value(b.id, from)];
      var cs := Enumerate(b.rest, [], d, inner, throws);
      PatientCycles(b.rest, b.id, d, inner, throws);
      PatientValues(b, around, from + 1, d, pre, throws);
      EnumerateLinked(b.rest, b.id, d, inner, throws);
      FullCyclesOfValue(b, from, pre, cs);
      FullConcat(b, pre, cs, EnumerateValues(b, from + 1, [], d, pre, throws));
      TracesStep(pre, Value(b.id, from), Paths(b.rest), ValuePaths(b, from + 1));
      OneMoreTime(b.size - from, Count(b.rest));
    } else {
      NoneLinked(b, pre);
    }
  }

  lemma OneMoreTime(n: nat, m: nat)
    requires n > 0
    ensures n * m == m + (n - 1) * m
  {
  }

  lemma {:induction false} PatientSections(b: Body, around: NameAndLocation, i: nat, d: nat, pre: Trace, throws: Throws,
          again: bool)
    requires b.Subs? && b.sections != [] && WellFormed(b, around) && Patient(b, d, pre, throws)
    requires i >= |b.sections| ==> again == Late(d + 1, Own(b.sections[|b.sections| - 1], d + 1, pre, throws), throws)
    ensures var cs := EnumerateSections(b, i, [], d, pre, throws, again);
      && |cs| == CountSections(b, i) + LastFailsBelow(b, i, d, pre, throws)
                 + (if Late(d + 1, Own(b.sections[|b.sections| - 1], d + 1, pre, throws), throws) then 1 else 0)
      && FullCycles(b, pre, cs) == Traces(pre, PathsFrom(b, i))
    decreases b, 0, |b.sections| - i
  {
    hide Complete, Paths, LastFails, FullCycles, Count, Enumerate, Late, Early, Cut, WellFormed;
    if i < |b.sections| {
      var s := b.sections[i];
      var cs := Own(s, d + 1, pre, throws);
      var r := Cut(d + 1, cs, throws);
      var rest := EnumerateSections(b, i + 1, [], d, pre, throws, r.failed);
      PatientSection(b, around, i, d, pre, throws);
      PatientSections(b, around, i + 1, d, pre, throws, r.failed);
      FullConcat(b, pre, r.list, rest);
      TracesStep(pre, Enter(s.id), Paths(s.body), PathsFrom(b, i + 1));
    } else {
      NotFull(b, pre, again);
    }
  }

  lemma NotFull(b: Body, pre: Trace, again: bool)
    requires b.Subs? && b.sections != []
    ensures FullCycles(b, pre, if again then [Cycle(pre, false)] else []) == []
  {
    assert pre[|pre|..] == [] && !Full(b, pre, Cycle(pre, false));
  }

  lemma {:induction false} PatientSection(b: Body, around: NameAndLocation, i: nat, d: nat, pre: Trace, throws: Throws)
    requires b.Subs? && i < |b.sections| && WellFormed(b, around) && Patient(b, d, pre, throws)
    ensures var s := b.sections[i];
      var inner := pre + [Enter(s.id)];
      var r := Cut(d + 1, Own(s, d + 1, pre, throws), throws);
      && |r.list| == Count(s.body) + LastFails(s.body, d + 1, inner, throws)
      && r.failed == Late(d + 1, Own(s, d + 1, pre, throws), throws)
      && FullCycles(b, pre, r.list) == Traces(inner, Paths(s.body))
    decreases b, 0, 0
  {
    hide Complete, Paths, LastFails, FullCycles, Count, Enumerate, Late, Early, Cut;
    var s := b.sections[i];
    var inner := pre + [Enter(s.id)];
    var cs := Own(s, d + 1, pre, throws);
    CutPatient(d + 1, cs, throws);
    CutKeeps(d + 1, cs, throws);
    PatientCycles(s.body, s.id, d + 1, inner, throws);
    OwnLinked(b, i, around, d, pre, throws);
    FullCyclesOfSection(b, i, around, pre, Cut(d + 1, cs, throws).list, cs);
  }

  /** The complete paths of a body are all different. */
  lemma PathsDiffer(b: Body, around: NameAndLocation, k: nat, l: nat)
    requires WellFormed(b, around) && k < l < |Paths(b)|
    ensures Paths(b)[k] != Paths(b)[l]
  {
    PathsSorted(b, k, l);
    BeforeDiffers(b, Paths(b)[k], Paths(b)[l], around);
  }

  /** The first full cycle behind `m` others goes through a path that none of these does. */
  lemma LaterIsNew(b: Body, around: NameAndLocation, pre: Trace, cs: seq<Cycle>, m: nat)
    requires WellFormed(b, around) && FullCycles(b, pre, cs) == Traces(pre, Paths(b))
    requires m < |cs| && Full(b, pre, cs[m])
    ensures forall k :: 0 <= k < m ==> cs[k].trace != cs[m].trace
  {
    hide Full, Paths, WellFormed;
    var front, back := FullCycles(b, pre, cs[..m]), FullCycles(b, pre, cs[m..]);
    assert cs == cs[..m] + cs[m..];
    FullConcat(b, pre, cs[..m], cs[m..]);
    assert back[0] == cs[m].trace;
    var n := |front|;
    assert Traces(pre, Paths(b))[n] == cs[m].trace;
    forall k | 0 <= k < m ensures cs[k].trace != cs[m].trace {
      if cs[k].trace == cs[m].trace {
        SameFull(b, pre, cs[k], cs[m]);
        assert cs[..m][k] == cs[k];
        FullHas(b, pre, cs[..m], cs[m].trace);
        var j :| 0 <= j < n && front[j] == cs[m].trace;
        assert Traces(pre, Paths(b))[j] == front[j];
        PathsDiffer(b, around, j, n);
        SameBehind(pre, Paths(b)[j], Paths(b)[n]);
      }
    }
  }

  lemma SameBehind(pre: Trace, x: Trace, y: Trace)
    requires pre + x == pre + y
    ensures x == y
  {
    assert (pre + x)[|pre|..] == x && (pre + y)[|pre|..] == y;
  }

  /** The path `x` of the body entered after `pre` is in none of the cycles. */
  ghost predicate Lost(x: Trace, pre: Trace, cs: seq<Cycle>) {
    forall k :: 0 <= k < |cs| ==> cs[k].trace != pre + x
  }

  /** A section that throws early loses a complete path. */
  lemma EarlyLoses(b: Body, around: NameAndLocation, d: nat, pre: Trace, throws: Throws) returns (x: Trace)
    requires WellFormed(b, around) && Patient(b, d, pre, throws)
    requires Early(d, Enumerate(b, [], d, pre, throws), throws)
    ensures Complete(b, x) && Lost(x, pre, Cut(d, Enumerate(b, [], d, pre, throws), throws).list)
  {
    hide Enumerate, Patient, WellFormed, Cut, Complete, Paths;
    var cs := Enumerate(b, [], d, pre, throws);
    var list := Cut(d, cs, throws).list;
    var m := |list|;
    CutKeeps(d, cs, throws);
    var k :| 0 <= k < |cs| - 1 && !cs[k].thrown && throws(d, cs[k].trace);
    CutFails(d, cs, k, throws);
    PatientCycles(b, around, d, pre, throws);
    EnumerateLinked(b, around, d, pre, throws);
    assert !cs[m - 1].thrown && Full(b, pre, cs[m]);
    LaterIsNew(b, around, pre, cs, m);
    x := cs[m].trace[|pre|..];
    assert pre + x == cs[m].trace;
  }

  /** Whoever throws early, a complete path is lost. */
  lemma {:induction false} ImpatientLoses(b: Body, around: NameAndLocation, d: nat, pre: Trace, throws: Throws)
          returns (x: Trace)
    requires WellFormed(b, around) && !Patient(b, d, pre, throws)
    ensures Complete(b, x) && Lost(x, pre, Enumerate(b, [], d, pre, throws))
    decreases b
  {
    match b
    case Gen(id, size, rest) =>
      var v: nat :| v < size && !Patient(rest, d, pre + [Value(id, v)], throws);
      var y := ImpatientLoses(rest, id, d, pre + [Value(id, v)], throws);
      x := [Value(id, v)] + y;
      assert x[1..] == y;
      LostValues(b, around, 0, v, d, pre, throws, y);
    case Subs(ss) =>
      var i :| 0 <= i < |ss| && (Early(d + 1, Own(ss[i], d + 1, pre, throws), throws)
          || !Patient(ss[i].body, d + 1, pre + [Enter(ss[i].id)], throws));
      var y;
      if Patient(ss[i].body, d + 1, pre + [Enter(ss[i].id)], throws) {
        y := EarlyLoses(ss[i].body, ss[i].id, d + 1, pre + [Enter(ss[i].id)], throws);
      } else {
        y := ImpatientLoses(ss[i].body, ss[i].id, d + 1, pre + [Enter(ss[i].id)], throws);
        CutLoses(d + 1, Own(ss[i], d + 1, pre, throws), throws, y, pre + [Enter(ss[i].id)]);
      }
      x := [Enter(ss[i].id)] + y;
      assert x[1..] == y;
      LostSections(b, around, 0, i, d, pre, throws, true, y);
  }

  lemma CutLoses(d: nat, cs: seq<Cycle>, throws: Throws, x: Trace, pre: Trace)
    requires Lost(x, pre, cs)
    ensures Lost(x, pre, Cut(d, cs, throws).list)
  {
    CutKeeps(d, cs, throws);
  }

  lemma LostJoin(x: Trace, pre: Trace, cs: seq<Cycle>, ds: seq<Cycle>)
    requires Lost(x, pre, cs) && Lost(x, pre, ds)
    ensures Lost(x, pre, cs + ds)
  {
  }

  /** Cycles that begin with one event do not go through a path that begins with another. */
  lemma LostElsewhere(e: Event, y: Trace, f: Event, pre: Trace, cs: seq<Cycle>)
    requires forall k :: 0 <= k < |cs| ==> pre + [f] <= cs[k].trace
    requires e == f ==> Lost(y, pre + [f], cs)
    ensures Lost([e] + y, pre, cs)
  {
    forall k | 0 <= k < |cs| ensures cs[k].trace != pre + ([e] + y) {
      assert (pre + [f])[|pre|] == f && (pre + ([e] + y))[|pre|] == e;
      assert pre + ([e] + y) == pre + [e] + y;
    }
  }

  lemma {:induction false} LostValues(b: Body, around: NameAndLocation, from: nat, v: nat, d: nat, pre: Trace,
          throws: Throws, y: Trace)
    requires b.Gen? && WellFormed(b, around) && v < b.size
    requires Lost(y, pre + [Value(b.id, v)], Enumerate(b.rest, [], d, pre + [Value(b.id, v)], throws))
    ensures Lost([Value(b.id, v)] + y, pre, EnumerateValues(b, from, [], d, pre, throws))
    decreases b.size - from
  {
    hide Lost, Enumerate;
    if from < b.size {
      var cs := Enumerate(b.rest, [], d, pre + [Value(b.id, from)], throws);
      EnumerateLinked(b.rest, b.id, d, pre + [Value(b.id, from)], throws);
      LostElsewhere(Value(b.id, v), y, Value(b.id, from), pre, cs);
      LostValues(b, around, from + 1, v, d, pre, throws, y);
      LostJoin([Value(b.id, v)] + y, pre, cs, EnumerateValues(b, from + 1, [], d, pre, throws));
    } else {
      LostNone([Value(b.id, v)] + y, pre);
    }
  }

  lemma LostNone(x: Trace, pre: Trace)
    requires x != []
    ensures Lost(x, pre, []) && Lost(x, pre, [Cycle(pre, false)])
  {
  }

  lemma {:induction false} LostSections(b: Body, around: NameAndLocation, from: nat, i: nat, d: nat, pre: Trace,
          throws: Throws, again: bool, y: Trace)
    requires b.Subs? && WellFormed(b, around) && i < |b.sections|
    requires Lost(y, pre + [Enter(b.sections[i].id)], Cut(d + 1, Own(b.sections[i], d + 1, pre, throws), throws).list)
    ensures Lost([Enter(b.sections[i].id)] + y, pre, EnumerateSections(b, from, [], d, pre, throws, again))
    decreases |b.sections| - from
  {
    hide Lost, Enumerate, Linked, StartsFull, Cut;
    var x := [Enter(b.sections[i].id)] + y;
    if from < |b.sections| {
      var s := b.sections[from];
      var cs := Own(s, d + 1, pre, throws);
      var r := Cut(d + 1, cs, throws);
      OwnLinked(b, from, around, d, pre, throws);
      LinkedSection(b, from, around, d + 1, pre, cs, throws);
      OtherId(b, around, i, from);
      LostElsewhere(Enter(b.sections[i].id), y, Enter(s.id), pre, r.list);
      LostSections(b, around, from + 1, i, d, pre, throws, r.failed, y);
      LostJoin(x, pre, r.list, EnumerateSections(b, from + 1, [], d, pre, throws, r.failed));
    } else {
      LostNone(x, pre);
    }
  }

  lemma OtherId(b: Body, around: NameAndLocation, i: nat, j: nat)
    requires b.Subs? && WellFormed(b, around) && i < |b.sections| && j < |b.sections|
    ensures b.sections[i].id == b.sections[j].id <==> i == j
  {
  }

  /** Every complete path is taken if and only if no section throws before the last cycle of its own. */
  lemma CoveredIff(b: Body, around: NameAndLocation, d: nat, pre: Trace, throws: Throws)
    requires WellFormed(b, around)
    ensures (forall x :: Complete(b, x) ==> !Lost(x, pre, Enumerate(b, [], d, pre, throws)))
        <==> Patient(b, d, pre, throws)
  {
    hide Enumerate, Patient, WellFormed, Complete, Paths;
    var cs := Enumerate(b, [], d, pre, throws);
    if Patient(b, d, pre, throws) {
      PatientCycles(b, around, d, pre, throws);
      forall x | Complete(b, x) ensures !Lost(x, pre, cs) {
        PathsComplete(b, x);
        var k :| 0 <= k < |Paths(b)| && Paths(b)[k] == x;
        assert FullCycles(b, pre, cs)[k] == pre + x;
        FullHas(b, pre, cs, pre + x);
      }
    } else {
      var x := ImpatientLoses(b, around, d, pre, throws);
      assert Complete(b, x) && Lost(x, pre, cs);
    }
  }

  /** Below `pre`, where depth `d` is reached, a section throws only when it is a leaf of `b`. */
  ghost predicate OnlyLeavesThrow(b: Body, d: nat, pre: Trace, throws: Throws) {
    forall e, t: Trace :: throws(e, t) && pre <= t ==>
      t != [] && t[|t| - 1].Enter? && e == d + |Entered(t[|pre|..])| && Complete(b, t[|pre|..])
  }

  lemma LastEntered(t: Trace)
    requires t != [] && t[|t| - 1].Enter?
    ensures Entered(t) != []
  {
    EnteredJoin(t[..|t| - 1], [t[|t| - 1]]);
    assert t == t[..|t| - 1] + [t[|t| - 1]];
  }

  lemma LeafThrowsOnce(b: Body, d: nat, pre: Trace, throws: Throws, t: Trace)
    requires OnlyLeavesThrow(b, d, pre, throws) && throws(d, t) && pre <= t
    ensures b == Subs([])
  {
    var w := t[|pre|..];
    if w != [] {
      LastEntered(w);
    }
  }

  lemma LeavesBelow(b: Body, e: Event, rest: Body, d: nat, pre: Trace, throws: Throws)
    requires OnlyLeavesThrow(b, d, pre, throws)
    requires forall w :: Complete(b, [e] + w) ==> Complete(rest, w)
    ensures OnlyLeavesThrow(rest, if e.Enter? then d + 1 else d, pre + [e], throws)
  {
    hide Complete;
    var inner := pre + [e];
    forall f, t: Trace | throws(f, t) && inner <= t
      ensures t != [] && t[|t| - 1].Enter? && f == (if e.Enter? then d + 1 else d) + |Entered(t[|inner|..])|
      ensures Complete(rest, t[|inner|..])
    {
      assert t[|pre|] == inner[|pre|] && pre == inner[..|pre|];
      assert t[|pre|..] == [e] + t[|inner|..] && ([e] + t[|inner|..])[1..] == t[|inner|..];
      EnteredFirst(t[|pre|..]);
    }
  }

  lemma CompleteBelow(b: Body, i: nat, around: NameAndLocation, w: Trace)
    requires b.Subs? && i < |b.sections| && WellFormed(b, around) && Complete(b, [Enter(b.sections[i].id)] + w)
    ensures Complete(b.sections[i].body, w)
  {
    assert ([Enter(b.sections[i].id)] + w)[1..] == w;
  }

  /** Any leaves may throw: each has but one cycle of its own. */
  lemma {:induction false} LeavesPatient(b: Body, around: NameAndLocation, d: nat, pre: Trace, throws: Throws)
    requires WellFormed(b, around) && OnlyLeavesThrow(b, d, pre, throws)
    ensures Patient(b, d, pre, throws)
    decreases b
  {
    hide OnlyLeavesThrow, Complete, Enumerate, Linked;
    match b
    case Gen(id, size, rest) =>
      forall v: nat | v < size ensures Patient(rest, d, pre + [Value(id, v)], throws) {
        forall w | Complete(b, [Value(id, v)] + w) ensures Complete(rest, w) {
          CompleteRest(b, v, w);
        }
        LeavesBelow(b, Value(id, v), rest, d, pre, throws);
        LeavesPatient(rest, id, d, pre + [Value(id, v)], throws);
      }
    case Subs(ss) =>
      forall i | 0 <= i < |ss|
        ensures !Early(d + 1, Own(ss[i], d + 1, pre, throws), throws)
            && Patient(ss[i].body, d + 1, pre + [Enter(ss[i].id)], throws)
      {
        var s := ss[i];
        forall w | Complete(b, [Enter(s.id)] + w) ensures Complete(s.body, w) {
          CompleteBelow(b, i, around, w);
        }
        LeavesBelow(b, Enter(s.id), s.body, d, pre, throws);
        LeavesPatient(s.body, s.id, d + 1, pre + [Enter(s.id)], throws);
        NoneEarly(b, i, around, d, pre, throws);
      }
  }

  lemma CompleteRest(b: Body, v: nat, w: Trace)
    requires b.Gen? && Complete(b, [Value(b.id, v)] + w)
    ensures Complete(b.rest, w)
  {
    assert ([Value(b.id, v)] + w)[1..] == w;
  }

  lemma NoneEarly(b: Body, i: nat, around: NameAndLocation, d: nat, pre: Trace, throws: Throws)
    requires b.Subs? && i < |b.sections| && WellFormed(b, around)
    requires OnlyLeavesThrow(b.sections[i].body, d + 1, pre + [Enter(b.sections[i].id)], throws)
    ensures !Early(d + 1, Own(b.sections[i], d + 1, pre, throws), throws)
  {
    hide OnlyLeavesThrow, Enumerate, WellFormed;
    var s := b.sections[i];
    var inner := pre + [Enter(s.id)];
    var cs := Own(s, d + 1, pre, throws);
    if Early(d + 1, cs, throws) {
      var k :| 0 <= k < |cs| - 1 && !cs[k].thrown && throws(d + 1, cs[k].trace);
      OwnLinked(b, i, around, d, pre, throws);
      LeafThrowsOnce(s.body, d + 1, inner, throws, cs[k].trace);
      LeafOnce(d + 1, inner, throws);
    }
  }

  lemma LeafOnce(d: nat, pre: Trace, throws: Throws)
    ensures |Enumerate(Subs([]), [], d, pre, throws)| == 1
  {
  }

  /** However sections throw, the test case is done after the cycles that the enumeration lists. Every complete path
      is then taken if and only if no section throws before the last cycle of its own; and if so, the cycles that
      take one go through all of them in order, each once, and there is one more cycle each time the last section of
      a body fails. */
  lemma ThrowingSectionsRun(id: NameAndLocation, b: Body, throws: Throws, n: nat)
    requires WellFormed(b, id)
    ensures var (runs, done) := RunTest(StartRun([]), id, b, throws, n);
      var cycles := Enumerate(b, [], 0, [], throws);
      && (done <==> n >= |cycles|)
      && |runs| == Min(n, |cycles|) && (forall k :: 0 <= k < |runs| ==> runs[k].trace == cycles[k].trace)
      && (done ==> ((forall x :: Complete(b, x) ==> exists k :: 0 <= k < |runs| && runs[k].trace == x)
          <==> Patient(b, 0, [], throws)))
      && (Patient(b, 0, [], throws) ==>
            |cycles| == Count(b) + LastFails(b, 0, [], throws) && FullCycles(b, [], cycles) == Paths(b))
  {
    hide Complete, RunTest, Enumerate, Paths, FullCycles, LastFails, Patient, WellFormed;
    var start: Trace := [];
    var cycles := Enumerate(b, [], 0, start, throws);
    var (runs, done) := RunTest(StartRun([]), id, b, throws, n);
    RunTestUnfiltered(id, b, throws, n);
    CoveredIff(b, id, 0, start, throws);
    if Patient(b, 0, start, throws) {
      PatientCycles(b, id, 0, start, throws);
      TracesFromStart(Paths(b));
    }
    if done {
      forall x ensures !Lost(x, start, cycles) <==> exists k :: 0 <= k < |runs| && runs[k].trace == x {
        assert start + x == x;
      }
    }
  }
}
