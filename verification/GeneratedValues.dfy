/** The values that a GENERATE in front of a body gives over the cycles of a test case. */
module GeneratedValues {
  import opened TrackerTree
  import opened TestBody
  import opened TrackerMachine
  import opened TrackerRunTest
  import opened SectionFilters
  import opened SectionPaths
  import opened Generators

  /** Each element is read once in every cycle of the body behind it. */
  function Cycles(rest: Body): Uses {
    v => Count(rest)
  }

  lemma {:induction false} ReadLength(n: nat, s: seq<Value>, uses: Uses)
    requires forall v :: uses(v) == n
    ensures |AsRead(uses, s)| == |s| * n
  {
    if s != [] {
      ReadLength(n, s[1..], uses);
      assert |s| * n == n + (|s| - 1) * n;
    }
  }

  /** Of elements read `c` times each, the one that read number `k` is of. */
  function Slot(c: nat, k: nat): nat
    requires c > 0
  {
    if k < c then 0 else 1 + Slot(c, k - c)
  }

  lemma OneLess(n: nat, c: nat, k: nat)
    requires k < n * c
    ensures c > 0 && n > 0 && n * c == (n - 1) * c + c
  {
  }

  /** When every element is read `c` times, read number `k` is of element number `Slot(c, k)`. */
  lemma {:induction false} ReadAt(c: nat, s: seq<Value>, uses: Uses, k: nat)
    requires (forall v :: uses(v) == c) && k < |s| * c
    ensures c > 0 && Slot(c, k) < |s| && |AsRead(uses, s)| == |s| * c && AsRead(uses, s)[k] == s[Slot(c, k)]
    decreases |s|
  {
    ReadLength(c, s, uses);
    OneLess(|s|, c, k);
    if k >= c {
      ReadAt(c, s[1..], uses, k - c);
    }
  }

  /** In front of `rest`, path number `k` goes through the value number `from + Slot(Count(rest), k)`. */
  lemma {:induction false} ValueOfPath(b: Body, from: nat, k: nat)
    requires b.Gen? && from <= b.size && k < (b.size - from) * Count(b.rest)
    ensures Count(b.rest) > 0 && |ValuePaths(b, from)| == (b.size - from) * Count(b.rest)
    ensures ValuePaths(b, from)[k] != [] && ValuePaths(b, from)[k][0]
        == Event.Value(b.id, from + Slot(Count(b.rest), k))
    decreases b.size - from
  {
    OneLess(b.size - from, Count(b.rest), k);
    if k >= Count(b.rest) {
      ValueOfPath(b, from + 1, k - Count(b.rest));
    }
  }

  /** Without filters and exceptions, a GENERATE of the expression `e` in front of `rest` has as many elements as `e`
      yields when each is read in Count(rest) cycles; and the values that the test case reads, cycle after cycle, are
      those elements, each as often. */
  lemma GeneratedInOrder(e: Expr, id: NameAndLocation, gen: NameAndLocation, rest: Body, throws: Throws, n: nat, k: nat)
    requires Allowed(e) && forall d, t :: !throws(d, t)
    requires var b := Gen(gen, |Elements(e, Cycles(rest))|, rest);
      WellFormed(b, id) && k < |RunTest(StartRun([]), id, b, throws, n).0|
    ensures var all := Elements(e, Cycles(rest));
      var b := Gen(gen, |all|, rest);
      var (runs, done) := RunTest(StartRun([]), id, b, throws, n);
      var seen := AsRead(Cycles(rest), all);
      && (done <==> n >= |seen|) && |runs| <= |seen|
      && var t := runs[k].trace;
         t != [] && t[0].Value? && t[0].gen == gen && t[0].index < |all| && all[t[0].index] == seen[k]
  {
    hide Elements, AsRead, WellFormed, RunTest, Enumerate, Paths, ValuePaths;
    var all := Elements(e, Cycles(rest));
    var b := Gen(gen, |all|, rest);
    var c := Count(rest);
    var start: Trace := [];
    EveryPathOnce(id, b, throws, n);
    RunTestUnfiltered(id, b, throws, n);
    EnumerateThrough(b, 0, start, throws);
    assert Count(b) == |all| * c;
    ReadLength(c, all, Cycles(rest));
    ReadAt(c, all, Cycles(rest), k);
    ValueOfPath(b, 0, k);
    PathsOfValues(b);
    assert start + Paths(b)[k] == Paths(b)[k];
  }

  lemma PathsOfValues(b: Body)
    requires b.Gen?
    ensures Paths(b) == ValuePaths(b, 0)
  {
  }
}
