/** The elements a generator expression stands for. */
module Generators {

  /** An element; the elements of a chunked generator are lists of elements. */
  datatype Value = Atom(n: int) | List(values: seq<Value>)

  /** A generator expression, as the functions of the public interface build it. */
  datatype Expr =
    | Single(value: Value)
    | Fixed(values: seq<Value>)
    | Range(start: int, end: int, step: int)
    | Take(target: nat, sub: Expr)
    | Filter(pred: Value -> bool, sub: Expr)
    | Repeat(repeats: nat, sub: Expr)
    | Map(f: Value -> Value, sub: Expr)
    | Chunk(size: nat, sub: Expr)
    | Concat(subs: seq<Expr>)

  /** How often whoever consumes a generator reads an element before moving on. */
  type Uses = Value -> nat

  function RangeFrom(current: int, end: int, step: int): seq<Value>
    requires step != 0
    decreases if step > 0 then end - current else current - end
  {
    if (if step > 0 then current < end else current > end) then [Atom(current)] + RangeFrom(current + step, end, step)
        else []
  }

  function Prefix(n: nat, s: seq<Value>): seq<Value> {
    if n < |s| then s[..n] else s
  }

  function Kept(pred: Value -> bool, s: seq<Value>): seq<Value> {
    if s == [] then [] else (if pred(s[0]) then [s[0]] else []) + Kept(pred, s[1..])
  }

  function Mapped(f: Value -> Value, s: seq<Value>): (r: seq<Value>)
    ensures |r| == |s|
  {
    if s == [] then [] else [f(s[0])] + Mapped(f, s[1..])
  }

  function Times(n: nat, s: seq<Value>): (r: seq<Value>) {
    if n == 0 then [] else s + Times(n - 1, s)
  }

  function Copies(n: nat, v: Value): (r: seq<Value>)
    ensures |r| == n && forall k :: 0 <= k < n ==> r[k] == v
  {
    seq(n, _ => v)
  }

  /** The elements as a consumer reads them. */
  function AsRead(uses: Uses, s: seq<Value>): seq<Value> {
    if s == [] then [] else Copies(uses(s[0]), s[0]) + AsRead(uses, s[1..])
  }

  /** The full blocks of a sequence. */
  function Blocks(size: nat, s: seq<Value>): seq<Value>
    requires size > 0
    decreases |s|
  {
    if |s| < size then [] else [List(s[..size])] + Blocks(size, s[size..])
  }

  const ONCE: Uses := v => 1

  /** A filter reads each element of its generator once to test it. */
  function FilterUses(pred: Value -> bool, uses: Uses): Uses {
    v => if pred(v) then uses(v) + 1 else 1
  }

  /** The elements that an expression yields to a consumer that reads them `uses` times. Only repeated
      generators depend on it: later repetitions give each element as often as it was read the first time. */
  function Elements(e: Expr, uses: Uses): seq<Value>
    requires Allowed(e)
    decreases e, 0
  {
    match e
    case Single(value) => [value]
    case Fixed(values) => values
    case Range(start, end, step) => RangeFrom(start, end, step)
    case Take(target, sub) => Prefix(target, Elements(sub, uses))
    case Filter(pred, sub) => Kept(pred, Elements(sub, FilterUses(pred, uses)))
    case Repeat(repeats, sub) => Elements(sub, uses) + Times(repeats - 1, AsRead(uses, Elements(sub, uses)))
    case Map(f, sub) => Mapped(f, Elements(sub, ONCE))
    case Chunk(size, sub) => Blocks(size, Elements(sub, ONCE))
    case Concat(subs) => ElementsOf(subs, uses)
  }

  function ElementsOf(es: seq<Expr>, uses: Uses): seq<Value>
    requires forall i :: 0 <= i < |es| ==> Allowed(es[i])
    decreases es, 1
  {
    if es == [] then [] else Elements(es[0], uses) + ElementsOf(es[1..], uses)
  }

  /** What the source asserts of the arguments. */
  predicate Allowed(e: Expr) {
    match e
    case Single(_) => true
    case Fixed(values) => values != []
    case Range(start, end, step) => start != end && step != 0 && (step > 0 <==> start < end)
    case Take(target, sub) => target > 0 && Allowed(sub)
    case Filter(_, sub) => Allowed(sub)
    case Repeat(repeats, sub) => repeats > 0 && Allowed(sub)
    case Map(_, sub) => Allowed(sub)
    case Chunk(size, sub) => size > 0 && Allowed(sub)
    case Concat(subs) => subs != [] && forall i :: 0 <= i < |subs| ==> Allowed(subs[i])
  }

  /** Whether every filter keeps an element and every chunk can be filled; otherwise building throws. */
  predicate Buildable(e: Expr, uses: Uses)
    requires Allowed(e)
  {
    match e
    case Single(_) => true
    case Fixed(_) => true
    case Range(_, _, _) => true
    case Take(_, sub) => Buildable(sub, uses)
    case Filter(pred, sub) => Buildable(sub, FilterUses(pred, uses)) && Elements(e, uses) != []
    case Repeat(_, sub) => Buildable(sub, uses)
    case Map(_, sub) => Buildable(sub, ONCE)
    case Chunk(_, sub) => Buildable(sub, ONCE) && Elements(e, uses) != []
    case Concat(subs) => forall i :: 0 <= i < |subs| ==> Buildable(subs[i], uses)
  }

  /** A generator that can be built has an element. */
  lemma {:induction false} HasElements(e: Expr, uses: Uses)
    requires Allowed(e) && Buildable(e, uses)
    ensures Elements(e, uses) != []
    decreases e
  {
    match e
    case Single(_) =>
    case Fixed(_) =>
    case Range(_, _, _) =>
    case Take(_, sub) => HasElements(sub, uses);
    case Filter(_, _) =>
    case Repeat(_, sub) => HasElements(sub, uses);
    case Map(_, sub) => HasElements(sub, ONCE);
    case Chunk(_, _) =>
    case Concat(subs) => HasElements(subs[0], uses);
  }

  /** The plain meaning, in which a repeated generator gives its elements again and again. */
  function Plain(e: Expr): seq<Value>
    requires Allowed(e)
    decreases e, 0
  {
    match e
    case Single(value) => [value]
    case Fixed(values) => values
    case Range(start, end, step) => RangeFrom(start, end, step)
    case Take(target, sub) => Prefix(target, Plain(sub))
    case Filter(pred, sub) => Kept(pred, Plain(sub))
    case Repeat(repeats, sub) => Times(repeats, Plain(sub))
    case Map(f, sub) => Mapped(f, Plain(sub))
    case Chunk(size, sub) => Blocks(size, Plain(sub))
    case Concat(subs) => PlainOf(subs)
  }

  function PlainOf(es: seq<Expr>): seq<Value>
    requires forall i :: 0 <= i < |es| ==> Allowed(es[i])
    decreases es, 1
  {
    if es == [] then [] else Plain(es[0]) + PlainOf(es[1..])
  }

  /** No generator is repeated right under a filter, nor, unless its consumer reads every element once, right under
      the consumer; maps and chunks read every element once and save it. */
  predicate ReadOnce(e: Expr, once: bool) {
    match e
    case Single(_) => true
    case Fixed(_) => true
    case Range(_, _, _) => true
    case Take(_, sub) => ReadOnce(sub, once)
    case Filter(_, sub) => ReadOnce(sub, false)
    case Repeat(repeats, sub) => (once || repeats <= 1) && ReadOnce(sub, once)
    case Map(_, sub) => ReadOnce(sub, true)
    case Chunk(_, sub) => ReadOnce(sub, true)
    case Concat(subs) => forall i :: 0 <= i < |subs| ==> ReadOnce(subs[i], once)
  }

  lemma {:induction false} AsReadOnce(uses: Uses, s: seq<Value>)
    requires forall v :: uses(v) == 1
    ensures AsRead(uses, s) == s
  {
    if s != [] {
      AsReadOnce(uses, s[1..]);
      assert Copies(1, s[0]) + s[1..] == s;
    }
  }

  /** A consumer gets the plain meaning, whatever the composition, if it reads every element once and no filter reads
      a repeated generator, or if no generator is repeated but below a map or a chunk. */
  lemma {:induction false} ElementsArePlain(e: Expr, uses: Uses, once: bool)
    requires Allowed(e) && ReadOnce(e, once) && (once ==> forall v :: uses(v) == 1)
    ensures Elements(e, uses) == Plain(e)
    decreases e, 0
  {
    match e
    case Single(_) =>
    case Fixed(_) =>
    case Range(_, _, _) =>
    case Take(_, sub) => ElementsArePlain(sub, uses, once);
    case Filter(pred, sub) => ElementsArePlain(sub, FilterUses(pred, uses), false);
    case Repeat(repeats, sub) =>
      ElementsArePlain(sub, uses, once);
      var p := Plain(sub);
      assert Times(repeats, p) == p + Times(repeats - 1, p);
      if once {
        AsReadOnce(uses, p);
      } else {
        assert Times(0, AsRead(uses, p)) == Times(0, p);
      }
    case Map(_, sub) => ElementsArePlain(sub, ONCE, true);
    case Chunk(_, sub) => ElementsArePlain(sub, ONCE, true);
    case Concat(subs) => ElementsOfArePlain(subs, uses, once);
  }

  lemma {:induction false} ElementsOfArePlain(es: seq<Expr>, uses: Uses, once: bool)
    requires forall i :: 0 <= i < |es| ==> Allowed(es[i]) && ReadOnce(es[i], once)
    requires once ==> forall v :: uses(v) == 1
    ensures ElementsOf(es, uses) == PlainOf(es)
    decreases es, 1
  {
    if es != [] {
      ElementsArePlain(es[0], uses, once);
      ElementsOfArePlain(es[1..], uses, once);
    }
  }

  const ALWAYS: Value -> bool := v => true

  /** Filtering a repeated generator does not give the plain meaning: the repetitions double every element. */
  lemma FilteredRepeat(a: Value, b: Value)
    ensures var e := Filter(ALWAYS, Repeat(2, Fixed([a, b])));
      && Plain(e) == [a, b, a, b]
      && Elements(e, ONCE) == [a, b, a, a, b, b]
  {
    var inner := Fixed([a, b]);
    var twice := FilterUses(ALWAYS, ONCE);
    assert twice(a) == 2 && twice(b) == 2;
    assert Copies(2, a) == [a, a] && Copies(2, b) == [b, b];
    assert [a, b][1..] == [b] && [b][1..] == [];
    assert AsRead(twice, [b]) == [b, b] + AsRead(twice, []);
    assert AsRead(twice, [a, b]) == [a, a] + [b, b] == [a, a, b, b];
    KeptAll([a, b, a, a, b, b]);
    KeptAll([a, b, a, b]);
    assert Times(1, [a, a, b, b]) == [a, a, b, b] + Times(0, [a, a, b, b]);
    assert Times(2, [a, b]) == [a, b] + ([a, b] + Times(0, [a, b]));
    assert Elements(inner, twice) == [a, b] == Plain(inner);
    assert Elements(Repeat(2, inner), twice) == [a, b] + [a, a, b, b] == [a, b, a, a, b, b];
    assert Plain(Repeat(2, inner)) == [a, b] + [a, b] == [a, b, a, b];
  }

  lemma {:induction false} KeptJoin(pred: Value -> bool, s: seq<Value>, t: seq<Value>)
    ensures Kept(pred, s + t) == Kept(pred, s) + Kept(pred, t)
    decreases |s|
  {
    if s == [] {
      assert s + t == t;
      assert Kept(pred, s) == [];
    } else {
      KeptFirst(pred, s);
      KeptFirst(pred, s + t);
      hide Kept;
      assert (s + t)[1..] == s[1..] + t;
      KeptJoin(pred, s[1..], t);
      JoinThree(if pred(s[0]) then [s[0]] else [], Kept(pred, s[1..]), Kept(pred, t));
    }
  }

  lemma KeptFirst(pred: Value -> bool, s: seq<Value>)
    requires s != []
    ensures Kept(pred, s) == (if pred(s[0]) then [s[0]] else []) + Kept(pred, s[1..])
  {
  }

  lemma JoinThree(a: seq<Value>, b: seq<Value>, c: seq<Value>)
    ensures a + (b + c) == (a + b) + c
  {
  }

  lemma {:induction false} KeptTimes(pred: Value -> bool, n: nat, s: seq<Value>)
    ensures Kept(pred, Times(n, s)) == Times(n, Kept(pred, s))
  {
    if n > 0 {
      KeptTimes(pred, n - 1, s);
      KeptJoin(pred, s, Times(n - 1, s));
    }
  }

  lemma {:induction false} TimesLength(n: nat, s: seq<Value>)
    ensures |Times(n, s)| == n * |s|
  {
    if n > 0 {
      TimesLength(n - 1, s);
      assert n * |s| == |s| + (n - 1) * |s|;
    }
  }

  lemma {:induction false} KeptCopies(pred: Value -> bool, n: nat, v: Value)
    ensures |Kept(pred, Copies(n, v))| == if pred(v) then n else 0
  {
    if n > 0 {
      assert Copies(n, v)[1..] == Copies(n - 1, v);
      KeptCopies(pred, n - 1, v);
    }
  }

  /** A filter reads every element it keeps twice, once to test it and once for its consumer. */
  lemma {:induction false} KeptTwice(pred: Value -> bool, s: seq<Value>)
    ensures |Kept(pred, AsRead(FilterUses(pred, ONCE), s))| == 2 * |Kept(pred, s)|
  {
    if s != [] {
      var uses := FilterUses(pred, ONCE);
      KeptTwice(pred, s[1..]);
      KeptCopies(pred, uses(s[0]), s[0]);
      KeptJoin(pred, Copies(uses(s[0]), s[0]), AsRead(uses, s[1..]));
    }
  }

  /** Filtering a generator that is repeated gives the plain meaning if and only if it is repeated once or
      the filter keeps nothing. */
  lemma FilteredRepeatIff(pred: Value -> bool, n: nat, sub: Expr)
    requires n > 0 && Allowed(sub) && ReadOnce(sub, false)
    ensures var e := Filter(pred, Repeat(n, sub));
      Elements(e, ONCE) == Plain(e) <==> n == 1 || Kept(pred, Plain(sub)) == []
  {
    var e := Filter(pred, Repeat(n, sub));
    var uses := FilterUses(pred, ONCE);
    var p := Plain(sub);
    var kept := Kept(pred, p);
    var again := Kept(pred, AsRead(uses, p));
    hide Kept, AsRead, FilterUses;
    ElementsArePlain(sub, uses, false);
    KeptTwice(pred, p);
    KeptJoin(pred, p, Times(n - 1, AsRead(uses, p)));
    KeptTimes(pred, n - 1, AsRead(uses, p));
    assert Elements(e, ONCE) == kept + Times(n - 1, again);
    KeptTimes(pred, n, p);
    assert Plain(e) == kept + Times(n - 1, kept);
    RepeatsDiffer(n, kept, again);
  }

  /** A repeated generator whose elements are read `uses` times has the plain meaning if and only if it is
      repeated once or each of its elements is read once. */
  lemma RepeatedReadIff(n: nat, sub: Expr, uses: Uses)
    requires n > 0 && Allowed(sub) && ReadOnce(sub, false) && forall v :: uses(v) > 0
    ensures var e := Repeat(n, sub);
      Elements(e, uses) == Plain(e) <==> n == 1 || forall k :: 0 <= k < |Plain(sub)| ==> uses(Plain(sub)[k]) == 1
  {
    var p := Plain(sub);
    hide AsRead, Times, ReadOnce;
    ElementsArePlain(sub, uses, false);
    TimesMore(n, p);
    assert Elements(Repeat(n, sub), uses) == p + Times(n - 1, AsRead(uses, p));
    assert Plain(Repeat(n, sub)) == p + Times(n - 1, p);
    AsReadLength(uses, p);
    if n == 1 {
      TimesNone(p, AsRead(uses, p));
    } else if |AsRead(uses, p)| > |p| {
      LongerDiffers(n, p, AsRead(uses, p));
    }
  }

  lemma TimesMore(n: nat, s: seq<Value>)
    requires n > 0
    ensures Times(n, s) == s + Times(n - 1, s)
  {
  }

  lemma {:induction false} TimesLonger(n: nat, s: seq<Value>, longer: seq<Value>)
    requires |longer| > |s|
    ensures |Times(n, longer)| >= |Times(n, s)| && (n > 0 ==> |Times(n, longer)| > |Times(n, s)|)
  {
    if n > 0 {
      TimesLonger(n - 1, s, longer);
    }
  }

  lemma LongerDiffers(n: nat, s: seq<Value>, longer: seq<Value>)
    requires n > 1 && |longer| > |s|
    ensures s + Times(n - 1, longer) != s + Times(n - 1, s)
  {
    TimesLonger(n - 1, s, longer);
    hide Times;
    assert |s + Times(n - 1, longer)| > |s + Times(n - 1, s)|;
  }

  /** Reading lengthens a sequence unless each of its elements is read once, when it leaves it as it is. */
  lemma {:induction false} AsReadLength(uses: Uses, s: seq<Value>)
    requires forall v :: uses(v) > 0
    ensures |AsRead(uses, s)| >= |s|
    ensures (forall k :: 0 <= k < |s| ==> uses(s[k]) == 1) ==> AsRead(uses, s) == s
    ensures (exists k :: 0 <= k < |s| && uses(s[k]) != 1) ==> |AsRead(uses, s)| > |s|
  {
    if s != [] {
      AsReadLength(uses, s[1..]);
      assert forall k :: 0 < k < |s| ==> s[k] == s[1..][k - 1];
      assert s == [s[0]] + s[1..];
      if forall k :: 0 <= k < |s| ==> uses(s[k]) == 1 {
        assert Copies(1, s[0]) == [s[0]];
        assert forall k :: 0 <= k < |s[1..]| ==> uses(s[1..][k]) == uses(s[k + 1]);
      }
    }
  }

  /** Two elements repeated twice in front of a body of two cycles: the second repetition gives each of them twice,
      though no filter reads them. */
  lemma RepeatedRead(a: Value, b: Value, uses: Uses)
    requires uses(a) == 2 && uses(b) == 2
    ensures var e := Repeat(2, Fixed([a, b]));
      && ReadOnce(e, true)
      && Plain(e) == [a, b, a, b]
      && Elements(e, uses) == [a, b, a, a, b, b]
  {
    assert Copies(2, a) == [a, a] && Copies(2, b) == [b, b];
    assert [a, b][1..] == [b] && [b][1..] == [];
    assert AsRead(uses, [b]) == [b, b] + AsRead(uses, []);
    assert AsRead(uses, [a, b]) == [a, a] + [b, b] == [a, a, b, b];
    assert Times(1, [a, a, b, b]) == [a, a, b, b] + Times(0, [a, a, b, b]);
    assert Times(2, [a, b]) == [a, b] + ([a, b] + Times(0, [a, b]));
  }

  lemma RepeatsDiffer(n: nat, kept: seq<Value>, again: seq<Value>)
    requires n > 0 && |again| == 2 * |kept|
    ensures kept + Times(n - 1, again) == kept + Times(n - 1, kept) <==> n == 1 || kept == []
  {
    TimesLength(n - 1, again);
    TimesLength(n - 1, kept);
    hide Times;
    if n == 1 || kept == [] {
      assert kept == [] ==> again == [];
      TimesNone(kept, again);
    } else {
      assert (n - 1) * (2 * |kept|) == 2 * ((n - 1) * |kept|);
      assert (n - 1) * |kept| > 0;
      assert |kept + Times(n - 1, again)| > |kept + Times(n - 1, kept)|;
    }
  }

  lemma TimesNone(kept: seq<Value>, again: seq<Value>)
    ensures Times(0, kept) == Times(0, again) == []
  {
  }

  lemma {:induction false} KeptAll(s: seq<Value>)
    ensures Kept(ALWAYS, s) == s
  {
    if s != [] {
      KeptAll(s[1..]);
      assert s == [s[0]] + s[1..];
    }
  }

  /** Element `k` of a range is start + k * step; all lie strictly before the end, and one more would not. */
  lemma {:induction false} RangeElements(start: int, end: int, step: int, k: nat)
    requires step != 0
    ensures var r := RangeFrom(start, end, step);
      && (k < |r| ==> r[k] == Atom(start + k * step) && if step > 0 then start + k * step < end
          else start + k * step > end)
      && (k == |r| ==> if step > 0 then start + k * step >= end else start + k * step <= end)
    decreases if step > 0 then end - start else start - end
  {
    if (if step > 0 then start < end else start > end) && k > 0 {
      RangeElements(start + step, end, step, k - 1);
      assert (k - 1) * step + step == k * step;
    }
  }

  /** Chunk `k` holds the elements from k * size on; only an incomplete last chunk is left out. */
  lemma {:induction false} BlockAt(size: nat, s: seq<Value>, k: nat)
    requires size > 0
    ensures var r := Blocks(size, s);
      && |r| * size <= |s| < (|r| + 1) * size
      && (k < |r| ==> k * size + size <= |s| && r[k] == List(s[k * size..k * size + size]))
    decreases |s|
  {
    if |s| >= size {
      var later := Blocks(size, s[size..]);
      BlockAt(size, s[size..], if k > 0 then k - 1 else 0);
      hide Blocks;
      assert (|later| + 1) * size == |later| * size + size;
      assert (|later| + 1 + 1) * size == (|later| + 1) * size + size;
      if 0 < k < |later| + 1 {
        assert size + (k - 1) * size == k * size;
        SliceBehind(s, size, (k - 1) * size, size);
      }
    }
  }

  lemma SliceBehind(s: seq<Value>, a: nat, b: nat, n: nat)
    requires a + b + n <= |s|
    ensures s[a..][b..b + n] == s[a + b..a + b + n]
  {
  }
}
