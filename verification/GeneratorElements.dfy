/** The elements of each adapter, one by one. */
module GeneratorElements {
  import opened Generators

  /** A prefix: the first `target` elements, or all if there are fewer. */
  lemma TakeElements(target: nat, sub: Expr, uses: Uses)
    requires target > 0 && Allowed(sub)
    ensures var r, s := Elements(Take(target, sub), uses), Elements(sub, uses);
      && |r| == (if target <= |s| then target else |s|)
      && forall k :: 0 <= k < |r| ==> r[k] == s[k]
  {
  }

  lemma {:induction false} MappedAt(f: Value -> Value, s: seq<Value>)
    ensures |Mapped(f, s)| == |s| && forall k :: 0 <= k < |s| ==> Mapped(f, s)[k] == f(s[k])
  {
    if s != [] {
      MappedAt(f, s[1..]);
      forall k | 0 <= k < |s| ensures Mapped(f, s)[k] == f(s[k]) {
        assert k > 0 ==> s[k] == s[1..][k - 1];
      }
    }
  }

  /** The function of each element. */
  lemma MapElements(f: Value -> Value, sub: Expr, uses: Uses)
    requires Allowed(sub)
    ensures var r, s := Elements(Map(f, sub), uses), Elements(sub, ONCE);
      |r| == |s| && forall k :: 0 <= k < |s| ==> r[k] == f(s[k])
  {
    MappedAt(f, Elements(sub, ONCE));
  }

  /** How many of the first `k` elements the filter keeps. */
  ghost function KeptBefore(pred: Value -> bool, s: seq<Value>, k: nat): nat
    requires k <= |s|
  {
    |set i | 0 <= i < k && pred(s[i])|
  }

  lemma OneMoreKept(pred: Value -> bool, s: seq<Value>, k: nat)
    requires k < |s|
    ensures KeptBefore(pred, s, 0) == 0
    ensures KeptBefore(pred, s, k + 1) == KeptBefore(pred, s, k) + (if pred(s[k]) then 1 else 0)
  {
    var before, after := set i | 0 <= i < k && pred(s[i]), set i | 0 <= i < k + 1 && pred(s[i]);
    assert after == if pred(s[k]) then before + {k} else before;
  }

  lemma {:induction false} KeptUpTo(pred: Value -> bool, s: seq<Value>, k: nat)
    requires k <= |s|
    ensures |Kept(pred, s[..k])| == KeptBefore(pred, s, k)
    ensures Kept(pred, s) == Kept(pred, s[..k]) + Kept(pred, s[k..])
    decreases k
  {
    assert s == s[..k] + s[k..];
    KeptJoin(pred, s[..k], s[k..]);
    if k > 0 {
      KeptUpTo(pred, s, k - 1);
      OneMoreKept(pred, s, k - 1);
      assert s[..k] == s[..k - 1] + [s[k - 1]];
      KeptJoin(pred, s[..k - 1], [s[k - 1]]);
      KeptOne(pred, s[k - 1]);
    } else if s != [] {
      OneMoreKept(pred, s, 0);
    }
  }

  lemma KeptOne(pred: Value -> bool, v: Value)
    ensures Kept(pred, [v]) == if pred(v) then [v] else []
  {
  }

  /** A kept element is found behind those kept before it; nothing else is there. */
  lemma KeptAt(pred: Value -> bool, s: seq<Value>)
    ensures |Kept(pred, s)| == KeptBefore(pred, s, |s|)
    ensures forall k :: 0 <= k < |s| && pred(s[k]) ==>
              KeptBefore(pred, s, k) < |Kept(pred, s)| && Kept(pred, s)[KeptBefore(pred, s, k)] == s[k]
  {
    hide KeptBefore;
    KeptUpTo(pred, s, |s|);
    assert s[..|s|] == s;
    forall k | 0 <= k < |s| && pred(s[k])
      ensures KeptBefore(pred, s, k) < |Kept(pred, s)| && Kept(pred, s)[KeptBefore(pred, s, k)] == s[k]
    {
      KeptUpTo(pred, s, k);
      KeptFirst(pred, s[k..]);
    }
  }

  /** The kept elements in order, and no others. */
  lemma FilterElements(pred: Value -> bool, sub: Expr, uses: Uses)
    requires Allowed(sub)
    ensures var r, s := Elements(Filter(pred, sub), uses), Elements(sub, FilterUses(pred, uses));
      && |r| == KeptBefore(pred, s, |s|)
      && forall k :: 0 <= k < |s| && pred(s[k]) ==> KeptBefore(pred, s, k) < |r| && r[KeptBefore(pred, s, k)] == s[k]
    ensures forall v :: FilterUses(pred, uses)(v) == if pred(v) then 1 + uses(v) else 1
  {
    KeptAt(pred, Elements(sub, FilterUses(pred, uses)));
  }

  lemma {:induction false} TimesAt(n: nat, s: seq<Value>, pass: nat, k: nat)
    requires pass < n && k < |s|
    ensures |Times(n, s)| == n * |s| && pass * |s| + k < n * |s| && Times(n, s)[pass * |s| + k] == s[k]
    decreases n
  {
    TimesLength(n, s);
    assert n * |s| == |s| + (n - 1) * |s|;
    if pass > 0 {
      TimesAt(n - 1, s, pass - 1, k);
      assert pass * |s| == |s| + (pass - 1) * |s|;
    } else {
      assert (n - 1) * |s| >= 0;
    }
  }

  /** How often the first `i` elements are read. */
  function Reads(uses: Uses, s: seq<Value>, i: nat): nat
    requires i <= |s|
  {
    if i == 0 then 0 else Reads(uses, s, i - 1) + uses(s[i - 1])
  }

  lemma {:induction false} ReadsBehind(uses: Uses, s: seq<Value>, i: nat)
    requires 0 < i <= |s|
    ensures Reads(uses, s, i) == uses(s[0]) + Reads(uses, s[1..], i - 1)
    decreases i
  {
    if i > 1 {
      ReadsBehind(uses, s, i - 1);
    }
  }

  /** Every element as often as it is read. */
  lemma {:induction false} AsReadAt(uses: Uses, s: seq<Value>, i: nat, j: nat)
    requires i < |s| && j < uses(s[i])
    ensures |AsRead(uses, s)| == Reads(uses, s, |s|)
    ensures Reads(uses, s, i) + j < |AsRead(uses, s)| && AsRead(uses, s)[Reads(uses, s, i) + j] == s[i]
    decreases |s|
  {
    AsReadSum(uses, s);
    if i > 0 {
      AsReadAt(uses, s[1..], i - 1, j);
      ReadsBehind(uses, s, i);
      ReadsBehind(uses, s, |s|);
    } else {
      ReadsBehind(uses, s, |s|);
    }
  }

  lemma {:induction false} AsReadSum(uses: Uses, s: seq<Value>)
    ensures |AsRead(uses, s)| == Reads(uses, s, |s|)
    decreases |s|
  {
    if s != [] {
      AsReadSum(uses, s[1..]);
      ReadsBehind(uses, s, |s|);
    }
  }

  /** The elements once, and then, in every further pass, each as often as it was read. */
  lemma RepeatElements(n: nat, sub: Expr, uses: Uses, pass: nat, i: nat, j: nat)
    requires n > 0 && Allowed(sub)
    requires var s := Elements(sub, uses); pass + 1 < n && i < |s| && j < uses(s[i])
    ensures var r, s := Elements(Repeat(n, sub), uses), Elements(sub, uses);
      var each := Reads(uses, s, |s|);
      && |r| == |s| + (n - 1) * each && s <= r
      && |s| + pass * each + Reads(uses, s, i) + j < |r|
      && r[|s| + pass * each + Reads(uses, s, i) + j] == s[i]
  {
    var s := Elements(sub, uses);
    assert Elements(Repeat(n, sub), uses) == s + Times(n - 1, AsRead(uses, s));
    hide Elements;
    LaterPasses(n, s, uses, pass, i, j);
  }

  lemma LaterPasses(n: nat, s: seq<Value>, uses: Uses, pass: nat, i: nat, j: nat)
    requires pass + 1 < n && i < |s| && j < uses(s[i])
    ensures var r := s + Times(n - 1, AsRead(uses, s));
      var each := Reads(uses, s, |s|);
      var at := |s| + pass * each + Reads(uses, s, i) + j;
      |r| == |s| + (n - 1) * each && at < |r| && r[at] == s[i]
  {
    AsReadAt(uses, s, i, j);
    hide AsRead, Times, Reads;
    TimesAt(n - 1, AsRead(uses, s), pass, Reads(uses, s, i) + j);
  }

  /** The number of elements of the first `i` generators. */
  function Ahead(es: seq<Expr>, uses: Uses, i: nat): nat
    requires i <= |es| && forall k :: 0 <= k < |es| ==> Allowed(es[k])
  {
    if i == 0 then 0 else Ahead(es, uses, i - 1) + |Elements(es[i - 1], uses)|
  }

  lemma {:induction false} AheadBehind(es: seq<Expr>, uses: Uses, i: nat)
    requires 0 < i <= |es| && forall k :: 0 <= k < |es| ==> Allowed(es[k])
    ensures Ahead(es, uses, i) == |Elements(es[0], uses)| + Ahead(es[1..], uses, i - 1)
    decreases i
  {
    if i > 1 {
      AheadBehind(es, uses, i - 1);
    }
  }

  lemma {:induction false} ElementsOfAt(es: seq<Expr>, uses: Uses, i: nat, k: nat)
    requires forall j :: 0 <= j < |es| ==> Allowed(es[j])
    requires i < |es| && k < |Elements(es[i], uses)|
    ensures var r := ElementsOf(es, uses);
      && |r| == Ahead(es, uses, |es|)
      && Ahead(es, uses, i) + k < |r| && r[Ahead(es, uses, i) + k] == Elements(es[i], uses)[k]
    decreases |es|
  {
    hide Elements;
    ElementsOfLength(es, uses);
    AheadBehind(es, uses, |es|);
    if i > 0 {
      ElementsOfAt(es[1..], uses, i - 1, k);
      AheadBehind(es, uses, i);
    }
  }

  lemma {:induction false} ElementsOfLength(es: seq<Expr>, uses: Uses)
    requires forall j :: 0 <= j < |es| ==> Allowed(es[j])
    ensures |ElementsOf(es, uses)| == Ahead(es, uses, |es|)
    decreases |es|
  {
    hide Elements, Allowed;
    if es != [] {
      AheadBehind(es, uses, |es|);
      hide Ahead;
      ElementsOfLength(es[1..], uses);
      assert |es[1..]| == |es| - 1;
    }
  }

  /** Element `k` of generator `i` of a list, behind all elements of those before it. */
  lemma ConcatElements(es: seq<Expr>, uses: Uses, i: nat, k: nat)
    requires Allowed(Concat(es)) && i < |es| && k < |Elements(es[i], uses)|
    ensures var r := Elements(Concat(es), uses);
      && |r| == Ahead(es, uses, |es|)
      && Ahead(es, uses, i) + k < |r| && r[Ahead(es, uses, i) + k] == Elements(es[i], uses)[k]
  {
    ElementsOfAt(es, uses, i, k);
  }

  /** Chunk `k` holds the elements from `k * size` on; only an incomplete last one is left out. */
  lemma ChunkElements(size: nat, sub: Expr, uses: Uses, k: nat)
    requires size > 0 && Allowed(sub)
    ensures var r, s := Elements(Chunk(size, sub), uses), Elements(sub, ONCE);
      && |r| * size <= |s| < (|r| + 1) * size
      && (k < |r| ==> k * size + size <= |s| && r[k] == List(s[k * size..k * size + size]))
  {
    BlockAt(size, Elements(sub, ONCE), k);
  }

  /** The sources: one value, the given values, or the numbers from the start on in steps, before the end. */
  lemma SourceElements(value: Value, values: seq<Value>, start: int, end: int, step: int, uses: Uses, k: nat)
    requires values != [] && Allowed(Range(start, end, step))
    ensures Elements(Single(value), uses) == [value] && Elements(Fixed(values), uses) == values
    ensures var r := Elements(Range(start, end, step), uses);
      && (k < |r| ==> r[k] == Atom(start + k * step))
      && (k < |r| ==> if step > 0 then start + k * step < end else start + k * step > end)
      && (k == |r| ==> if step > 0 then start + k * step >= end else start + k * step <= end)
  {
    RangeElements(start, end, step, k);
  }
}
