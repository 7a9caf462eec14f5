/** When section filters keep a test case from ever finishing. */
module StuckGenerators {
  import opened TrackerTree
  import opened TestBody
  import opened TrackerMachine
  import opened TrackerRunTest
  import opened TrackerWait
  import opened SectionPaths

  /** For every body, every filters and every way sections may throw: the loop over the cycles of a test case ends
      if and only if every cycle in which a generator waits for a section that the filters keep out is ended by
      an exception. */
  lemma FinishesIff(id: NameAndLocation, b: Body, filters: seq<string>, throws: Throws)
    requires WellFormed(b, id)
    ensures (exists n :: RunTest(StartRun(filters), id, b, throws, n).1)
            <==> (forall c :: c in Enumerate(b, TestCaseFilters(filters), 0, [], throws) ==>
                                StuckAt(b, TestCaseFilters(filters), false, 0, c.trace) ==> c.thrown)
  {
    hide RunTest, Enumerate, StuckAt, WellFormed;
    var cycles := Enumerate(b, TestCaseFilters(filters), 0, [], throws);
    forall n: nat ensures RunTest(StartRun(filters), id, b, throws, n).1
        <==> NoneWaits(b, TestCaseFilters(filters), cycles) && n >= |cycles| {
      RunTestEnumerates(id, b, filters, throws, n);
    }
    assert RunTest(StartRun(filters), id, b, throws, |cycles|).1 <==> NoneWaits(b, TestCaseFilters(filters), cycles);
  }

  /** When nothing throws, some cycle comes to a stuck generator of the body. */
  lemma {:induction false} ComesToStuck(b: Body, filters: seq<string>, under: bool, around: NameAndLocation, d: nat,
          trace: Trace, throws: Throws)
    returns (c: Cycle)
    requires WellFormed(b, around) && !StuckFree(b, filters, under) && forall e, t :: !throws(e, t)
    ensures c in Enumerate(b, filters, d, trace, throws) && !c.thrown && trace <= c.trace
        && StuckAt(b, filters, under, |trace|, c.trace)
    decreases b, 1, 0
  {
    hide EnumerateSections;
    match b
    case Gen(id, size, rest) =>
      c := ComesToStuck(rest, filters, true, id, d, trace + [Value(id, 0)], throws);
      assert Enumerate(b, filters, d, trace, throws) == EnumerateValues(b, 0, filters, d, trace, throws);
      assert (trace + [Value(id, 0)])[|trace|] == Value(id, 0);
    case Subs(ss) =>
      if under && Stuck(ss, filters) {
        c := Cycle(trace, false);
        NoneAdmitted(b, 0, filters, d, trace, throws, true);
      } else {
        var i :| 0 <= i < |ss| && Admits(NextFilters(filters), ss[i].id.name)
            && !StuckFree(ss[i].body, NextFilters(filters), false);
        c := ComesToStuck(ss[i].body, NextFilters(filters), false, ss[i].id, d + 1, trace + [Enter(ss[i].id)], throws);
        CyclesOfSection(b, 0, i, filters, d, trace, throws, true, c);
        assert (trace + [Enter(ss[i].id)])[|trace|] == Enter(ss[i].id);
      }
  }

  lemma {:induction false} CyclesOfSection(b: Body, from: nat, i: nat, filters: seq<string>, d: nat, trace: Trace,
          throws: Throws, again: bool, c: Cycle)
    requires b.Subs? && from <= i < |b.sections| && Admits(NextFilters(filters), b.sections[i].id.name)
    requires c in Enumerate(b.sections[i].body, NextFilters(filters), d + 1, trace + [Enter(b.sections[i].id)], throws)
    requires forall e, t :: !throws(e, t)
    ensures c in EnumerateSections(b, from, filters, d, trace, throws, again)
    decreases i - from
  {
    hide Enumerate, Cut, Admits;
    var s := b.sections[from];
    var own := Enumerate(s.body, NextFilters(filters), d + 1, trace + [Enter(s.id)], throws);
    CutNever(d + 1, own, throws);
    if from < i {
      CyclesOfSection(b, from + 1, i, filters, d, trace, throws,
          if Admits(NextFilters(filters), s.id.name) then false else again, c);
    }
  }

  /** When nothing throws, the loop over the cycles of a test case ends if and only if the filters leave no
      generator directly above sections they all keep out while one of these is named by the filters around
      the generator; that it then ends holds however sections throw. */
  lemma FinishesIffStuckFree(id: NameAndLocation, b: Body, filters: seq<string>, throws: Throws)
    requires WellFormed(b, id)
    ensures StuckFree(b, TestCaseFilters(filters), false) ==> exists n :: RunTest(StartRun(filters), id, b, throws, n).1
    ensures (forall d, t :: !throws(d, t)) ==>
              ((exists n :: RunTest(StartRun(filters), id, b, throws, n).1)
                  <==> StuckFree(b, TestCaseFilters(filters), false))
  {
    hide RunTest, Enumerate, StuckAt, StuckFree, WellFormed;
    FinishesIff(id, b, filters, throws);
    var start: Trace := [];
    if StuckFree(b, TestCaseFilters(filters), false) {
      StuckFreeNoneWaits(b, filters, throws);
    } else if forall d, t :: !throws(d, t) {
      var c := ComesToStuck(b, TestCaseFilters(filters), false, id, 0, start, throws);
      assert c in Enumerate(b, TestCaseFilters(filters), 0, [], throws) && !c.thrown;
    }
  }

  /** Section "a" holds a one-element generator and, behind it, a section that is also called "a". */
  function StuckBody(): Body {
    Subs([Sec(Here("a", 2), Gen(Here("g", 3), 1, Subs([Sec(Here("a", 4), Subs([]))])))])
  }

  function StuckTrace(): Trace {
    [Enter(Here("a", 2)), Value(Here("g", 3), 0)]
  }

  /** With the section filters "a" and "b" the generator waits in the only cycle of section "a". */
  lemma StuckBodyWaits(throws: Throws)
    ensures WellFormed(StuckBody(), Here("case", 1))
    ensures StuckAt(StuckBody(), TestCaseFilters(["a", "b"]), false, 0, StuckTrace())
    ensures !StuckAt(StuckBody(), TestCaseFilters(["a", "b"]), false, 0, [])
    ensures var thrown := throws(1, StuckTrace());
      Enumerate(StuckBody(), TestCaseFilters(["a", "b"]), 0, [], throws)
      == [Cycle(StuckTrace(), thrown)] + if thrown then [Cycle([], false)] else []
  {
    var filters := ["a", "b"];
    var inner := Subs([Sec(Here("a", 4), Subs([]))]);
    var body := Gen(Here("g", 3), 1, inner);
    var s := StuckBody().sections[0];
    assert Here("g", 3).line != Here("a", 2).line;
    assert WellFormed(inner.sections[0].body, Here("a", 4));
    assert WellFormed(inner, Here("g", 3));
    assert WellFormed(body, Here("a", 2));
    assert s == Sec(Here("a", 2), body);
    assert Trim("a") == "a";
    assert TestCaseFilters(filters) == ["", "a", "b"] && NextFilters(["", "a", "b"]) == filters;
    assert NextFilters(filters) == ["b"] && !Admits(["b"], "a");
    assert Trim(inner.sections[0].id.name) in filters;
    assert Stuck(inner.sections, filters);
    assert Admits(filters, s.id.name);
    var t := StuckTrace();
    assert [] + [Enter(Here("a", 2))] == t[..1] && t[..1] + [Value(Here("g", 3), 0)] == t;
    NoneAdmitted(inner, 0, filters, 1, t, throws, true);
    assert Enumerate(inner, filters, 1, t, throws) == [Cycle(t, false)];
    assert EnumerateValues(body, 1, filters, 1, t[..1], throws) == [];
    assert Enumerate(body, filters, 1, t[..1], throws) == [Cycle(t, false)];
    OnlySection(StuckBody(), ["", "a", "b"], 0, [], throws, t);
  }

  /** The cycles of a body with one section that has one cycle of its own. */
  lemma OnlySection(b: Body, filters: seq<string>, d: nat, trace: Trace, throws: Throws, t: Trace)
    requires b.Subs? && |b.sections| == 1 && Admits(NextFilters(filters), b.sections[0].id.name)
    requires Enumerate(b.sections[0].body, NextFilters(filters), d + 1, trace + [Enter(b.sections[0].id)], throws)
        == [Cycle(t, false)]
    ensures Enumerate(b, filters, d, trace, throws)
         == [Cycle(t, throws(d + 1, t))] + if throws(d + 1, t) then [Cycle(trace, false)] else []
  {
    var r := Cut(d + 1, [Cycle(t, false)], throws);
    assert Cut(d + 1, [], throws) == Cycles([], false);
    assert [Cycle(t, false)][1..] == [];
    assert r == Cycles([Cycle(t, throws(d + 1, t))], throws(d + 1, t));
    assert Enumerate(b, filters, d, trace, throws)
        == r.list + EnumerateSections(b, 1, filters, d, trace, throws, r.failed);
  }

  /** The run of that body never ends unless section "a" throws in that cycle, and then takes two cycles. */
  lemma StuckExample(throws: Throws, n: nat)
    ensures RunTest(StartRun(["a", "b"]), Here("case", 1), StuckBody(), throws, n).1
        <==> throws(1, StuckTrace()) && n >= 2
  {
    hide StuckBody, StuckTrace, RunTest, WellFormed, StuckAt, Enumerate;
    StuckBodyWaits(throws);
    var start: Trace := [];
    var own := TestCaseFilters(["a", "b"]);
    var cycles := Enumerate(StuckBody(), own, 0, start, throws);
    RunTestEnumerates(Here("case", 1), StuckBody(), ["a", "b"], throws, n);
    if throws(1, StuckTrace()) {
      assert |cycles| == 2 && !Waits(StuckBody(), own, cycles[0]) && !Waits(StuckBody(), own, cycles[1]);
    } else {
      assert Waits(StuckBody(), own, cycles[0]);
    }
  }
}
