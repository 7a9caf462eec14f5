/** Test bodies and the plain recursive enumeration of the cycles they give rise to. */
module TestBody {
  import opened TrackerTree

  /** Zero or more GENERATEs followed by zero or more SECTIONs whose bodies have the same shape. */
  datatype Body =
    | Gen(id: NameAndLocation, size: nat, rest: Body)
    | Subs(sections: seq<Sec>)

  datatype Sec = Sec(id: NameAndLocation, body: Body)

  datatype Event = Enter(id: NameAndLocation) | Value(gen: NameAndLocation, index: nat)

  type Trace = seq<Event>

  /** `Throws(d, trace)`: does the body of the section at nesting depth `d` end by throwing when the
      current cycle has done `trace` so far? */
  type Throws = (nat, Trace) -> bool

  /** What one cycle did, and whether an exception ended it. */
  datatype Cycle = Cycle(trace: Trace, thrown: bool)

  /** All the cycles of one section, and whether the section ended by failing itself. */
  datatype Cycles = Cycles(list: seq<Cycle>, failed: bool)

  /** A place in a file of examples. */
  function Here(name: string, line: nat): NameAndLocation {
    NameAndLocation(name, "test.cpp", line)
  }

  /** Sibling sections sit at distinct positions, generators are not empty, and a generator does not
      share its position with the tracker it is declared in. */
  predicate WellFormed(b: Body, around: NameAndLocation) {
    match b
    case Gen(id, size, rest) => size > 0 && id != around && WellFormed(rest, id)
    case Subs(ss) =>
      && (forall i, j :: 0 <= i < j < |ss| ==> ss[i].id != ss[j].id)
      && (forall i :: 0 <= i < |ss| ==> WellFormed(ss[i].body, ss[i].id))
  }

  /** The cycles of a section, given those its body would have if the section itself never threw:
      the first cycle that unwinds nothing yet and in which the section throws is its last one. */
  function Cut(d: nat, cs: seq<Cycle>, throws: Throws): (r: Cycles)
    ensures |r.list| <= |cs|
    ensures cs != [] ==> r.list != []
  {
    if cs == [] then Cycles([], false)
    else if !cs[0].thrown && throws(d, cs[0].trace) then Cycles([Cycle(cs[0].trace, true)], true)
    else
      var r := Cut(d, cs[1..], throws);
      Cycles([cs[0]] + r.list, r.failed)
  }

  /** The cycles of a body entered with `trace`, with no tracker in sight. */
  function Enumerate(b: Body, filters: seq<string>, d: nat, trace: Trace, throws: Throws): seq<Cycle>
    decreases b, 1, 0
  {
    match b
    case Gen(id, size, rest) => EnumerateValues(b, 0, filters, d, trace, throws)
    case Subs(ss) => EnumerateSections(b, 0, filters, d, trace, throws, true)
  }

  /** One run of the rest of the body per remaining value, in order. */
  function EnumerateValues(b: Body, from: nat, filters: seq<string>, d: nat, trace: Trace, throws: Throws): seq<Cycle>
    requires b.Gen?
    decreases b, 0, b.size - from
  {
    if from >= b.size then []
    else Enumerate(b.rest, filters, d, trace + [Value(b.id, from)], throws)
         + EnumerateValues(b, from + 1, filters, d, trace, throws)
  }

  /** The sections in order; `again` asks for one more, sectionless cycle when no section is left to
      enter: a body without sections, or one whose last section failed. */
  function EnumerateSections(b: Body, from: nat, filters: seq<string>, d: nat, trace: Trace, throws: Throws,
          again: bool): seq<Cycle>
    requires b.Subs?
    decreases b, 0, |b.sections| - from
  {
    if from >= |b.sections| then (if again then [Cycle(trace, false)] else [])
    else
      var s := b.sections[from];
      var own := NextFilters(filters);
      if !Admits(own, s.id.name) then EnumerateSections(b, from + 1, filters, d, trace, throws, again)
      else
        var r := Cut(d + 1, Enumerate(s.body, own, d + 1, trace + [Enter(s.id)], throws), throws);
        r.list + EnumerateSections(b, from + 1, filters, d, trace, throws, r.failed)
  }

  /** A generator directly above sections none of which its filters admit, one of which is named like the
      head of the enclosing section's filters: the generator waits for a section that never starts. */
  predicate Stuck(ss: seq<Sec>, filters: seq<string>) {
    && (forall i :: 0 <= i < |ss| ==> !Admits(NextFilters(filters), ss[i].id.name))
    && (exists i :: 0 <= i < |ss| && Trim(ss[i].id.name) in filters)
  }

  /** The trace `t`, of which position `n` is where the body is entered, ends at a stuck generator of the body. */
  predicate StuckAt(b: Body, filters: seq<string>, underGenerator: bool, n: nat, t: Trace) {
    match b
    case Gen(id, _, rest) => n < |t| && t[n].Value? && t[n].gen == id && StuckAt(rest, filters, true, n + 1, t)
    case Subs(ss) =>
      if n >= |t| then underGenerator && Stuck(ss, filters)
      else
        exists i :: 0 <= i < |ss| && t[n] == Enter(ss[i].id) && Admits(NextFilters(filters), ss[i].id.name)
                    && StuckAt(ss[i].body, NextFilters(filters), false, n + 1, t)
  }

  /** In the cycle `c` of a test case a generator waits, and no exception drops it. */
  predicate Waits(b: Body, filters: seq<string>, c: Cycle) {
    !c.thrown && StuckAt(b, filters, false, 0, c.trace)
  }

  /** The first of the cycles in which a generator waits, if there is one. */
  function FirstWait(b: Body, filters: seq<string>, cycles: seq<Cycle>): (m: nat)
    ensures m <= |cycles|
    ensures m < |cycles| ==> Waits(b, filters, cycles[m])
    ensures forall k :: 0 <= k < m ==> !Waits(b, filters, cycles[k])
  {
    if cycles == [] || Waits(b, filters, cycles[0]) then 0 else 1 + FirstWait(b, filters, cycles[1..])
  }

  /** No generator that the filters let run is stuck. */
  predicate StuckFree(b: Body, filters: seq<string>, underGenerator: bool) {
    match b
    case Gen(_, _, rest) => StuckFree(rest, filters, true)
    case Subs(ss) =>
      && (underGenerator ==> !Stuck(ss, filters))
      && forall i :: 0 <= i < |ss| && Admits(NextFilters(filters), ss[i].id.name) ==>
                       StuckFree(ss[i].body, NextFilters(filters), false)
  }
}
