/** Text with ANSI colour escapes: the iterator that skips them, in both directions. */
module AnsiText {

  /** Stands for the `m` that ends an escape, so that going backwards can tell an escape from text. */
  const SENTINEL: char := '\U{00FF}'

  const ESC: char := '\U{001B}'

  predicate IsParameter(c: char) {
    '0' <= c <= '9' || c == ';'
  }

  /** The first position from `i` on that holds neither a digit nor a semicolon. */
  function ParametersEnd(s: string, i: nat): (j: nat)
    requires i <= |s|
    ensures i <= j <= |s|
    ensures forall k :: i <= k < j ==> IsParameter(s[k])
    ensures j < |s| ==> !IsParameter(s[j])
    decreases |s| - i
  {
    if i < |s| && IsParameter(s[i]) then ParametersEnd(s, i + 1) else i
  }

  /** The position after the escape that starts at `i` and ends with `last`; `i` when there is none. */
  function EscapeEnd(s: string, i: nat, last: char): (e: nat)
    requires i <= |s|
    ensures i <= e <= |s|
    ensures e == i || i + 2 < e
  {
    if i + 1 < |s| && s[i] == ESC && s[i + 1] == '[' then
      var cursor := ParametersEnd(s, i + 2);
      if cursor < |s| && s[cursor] == last then cursor + 1 else i
    else i
  }

  lemma {:induction false} ParametersMean(s: string, i: nat, j: nat)
    requires i <= j <= |s| && (forall k :: i <= k < j ==> s[k] in "0123456789;") && (j < |s| ==> s[j] !in "0123456789;")
    ensures ParametersEnd(s, i) == j
    decreases j - i
  {
    if i < j {
      ParametersMean(s, i + 1, j);
    }
  }

  /** An escape is ESC and '[', any digits and semicolons, and 'm'. */
  lemma EscapeMeans(before: string, parameters: string, after: string)
    requires forall k :: 0 <= k < |parameters| ==> parameters[k] in "0123456789;"
    ensures var text := before + "\U{001B}[" + parameters + "m" + after;
      EscapeEnd(text, |before|, 'm') == |text| - |after|
  {
    var text := before + "\U{001B}[" + parameters + "m" + after;
    var i := |before|;
    assert text[i] == ESC && text[i + 1] == '[';
    var j := i + 2 + |parameters|;
    assert forall k :: i + 2 <= k < j ==> text[k] == parameters[k - (i + 2)];
    assert text[j] == 'm';
    ParametersMean(text, i + 2, j);
  }

  /** The position after all the escapes that follow each other from `i` on. */
  function SkipEscapes(s: string, i: nat, last: char): (e: nat)
    requires i <= |s|
    ensures i <= e <= |s|
    ensures EscapeEnd(s, e, last) == e
    decreases |s| - i
  {
    var e := EscapeEnd(s, i, last);
    if e == i then i else SkipEscapes(s, e, last)
  }

  /** The positions from `i` on of the characters outside escapes. */
  function Stops(text: string, i: nat): (ps: seq<nat>)
    requires i <= |text|
    ensures forall p :: p in ps ==> i <= p < |text|
    ensures |ps| <= |text| - i
    decreases |text| - i
  {
    var e := EscapeEnd(text, i, 'm');
    if e > i then Stops(text, e)
    else if i == |text| then []
    else [i] + Stops(text, i + 1)
  }

  /** The text from `i` on with the last character of every escape replaced. */
  function Marked(text: string, i: nat): (m: string)
    requires i <= |text|
    ensures |m| == |text| - i
    decreases |text| - i
  {
    var e := EscapeEnd(text, i, 'm');
    if e > i then text[i..e - 1] + [SENTINEL] + Marked(text, e)
    else if i == |text| then ""
    else [text[i]] + Marked(text, i + 1)
  }

  /** The text after `substring` has put the replaced characters back. */
  function Restored(m: string): (t: string)
    ensures |t| == |m|
    ensures forall k :: 0 <= k < |m| ==> t[k] == if m[k] == SENTINEL then 'm' else m[k]
  {
    seq(|m|, k requires 0 <= k < |m| => if m[k] == SENTINEL then 'm' else m[k])
  }

  /** `m` is `text` with some `m`s replaced by the sentinel. */
  ghost predicate Marks(m: string, text: string) {
    && |m| == |text|
    && forall k :: 0 <= k < |m| ==> m[k] == text[k] || (m[k] == SENTINEL && text[k] == 'm')
  }

  lemma MarksJoin(m: string, text: string, n: string, later: string)
    requires Marks(m, text) && Marks(n, later)
    ensures Marks(m + n, text + later)
  {
  }

  lemma {:induction false} MarkedMarks(text: string, i: nat)
    requires i <= |text|
    ensures Marks(Marked(text, i), text[i..])
    decreases |text| - i
  {
    var e := EscapeEnd(text, i, 'm');
    if e > i {
      MarkedMarks(text, e);
      assert text[e - 1] == 'm';
      MarksJoin(text[i..e - 1] + [SENTINEL], text[i..e], Marked(text, e), text[e..]);
      assert text[i..] == text[i..e] + text[e..];
    } else if i < |text| {
      MarkedMarks(text, i + 1);
      MarksJoin([text[i]], [text[i]], Marked(text, i + 1), text[i + 1..]);
      assert text[i..] == [text[i]] + text[i + 1..];
    }
  }

  /** Parameters are the same in the marked text, and an escape seen there is one of the text. */
  lemma {:induction false} MarkedParameters(m: string, text: string, i: nat)
    requires Marks(m, text) && i <= |m|
    ensures ParametersEnd(m, i) == ParametersEnd(text, i)
    decreases |m| - i
  {
    if i < |m| && IsParameter(text[i]) {
      MarkedParameters(m, text, i + 1);
    }
  }

  lemma MarkedEscape(m: string, text: string, i: nat)
    requires Marks(m, text) && i <= |m| && SENTINEL !in text
    ensures EscapeEnd(m, i, SENTINEL) == i || EscapeEnd(m, i, SENTINEL) == EscapeEnd(text, i, 'm')
    ensures EscapeEnd(text, i, 'm') > i && m[EscapeEnd(text, i, 'm') - 1] == SENTINEL && m[i..i + 2] == text[i..i + 2]
            ==> EscapeEnd(m, i, SENTINEL) == EscapeEnd(text, i, 'm')
  {
    if i + 2 <= |m| {
      MarkedParameters(m, text, i + 2);
      assert m[i..i + 2] == text[i..i + 2] ==>
          m[i] == m[i..i + 2][0] == text[i] && m[i + 1] == m[i..i + 2][1] == text[i + 1];
    }
  }

  /** The text behind a position that the tokens of the text line up with. */
  ghost predicate From(m: string, text: string, i: nat) {
    && Marks(m, text) && i <= |text| && SENTINEL !in text
    && m[i..] == Marked(text, i)
  }

  lemma Whole(text: string)
    requires SENTINEL !in text
    ensures From(Marked(text, 0), text, 0)
  {
    MarkedMarks(text, 0);
    assert text[0..] == text;
  }

  /** One token further: behind an escape, or behind a character outside escapes. */
  lemma OneToken(m: string, text: string, i: nat)
    requires From(m, text, i)
    ensures |m| == |text|
    ensures var e := EscapeEnd(text, i, 'm');
      && EscapeEnd(m, i, SENTINEL) == e
      && (e > i ==> From(m, text, e) && m[e - 1] == SENTINEL && m[i] == ESC && forall k :: i < k < e ==> m[k] != ESC)
      && (e == i < |text| ==> From(m, text, i + 1) && m[i] == text[i] != SENTINEL)
  {
    var e := EscapeEnd(text, i, 'm');
    if e > i {
      assert m[e..] == m[i..][e - i..];
      assert m[e - 1] == m[i..][e - 1 - i] == SENTINEL;
      forall k | i <= k < e - 1 ensures m[k] == text[k] {
        assert m[k] == m[i..][k - i];
      }
      assert m[i..i + 2] == text[i..i + 2];
    } else if i < |text| {
      assert m[i + 1..] == m[i..][1..];
      assert m[i] == m[i..][0];
    }
    MarkedEscape(m, text, i);
  }

  /** Skipping escapes leads to the next character outside escapes, or to the end. */
  lemma {:induction false} SkipToStop(m: string, text: string, i: nat)
    requires From(m, text, i)
    ensures var p := SkipEscapes(m, i, SENTINEL);
      && From(m, text, p)
      && Stops(text, i) == Stops(text, p)
      && (if p == |text| then Stops(text, i) == []
          else Stops(text, i) == [p] + Stops(text, p + 1) && From(m, text, p + 1) && m[p] == text[p] != SENTINEL)
    decreases |text| - i
  {
    hide From, Marked, Marks, EscapeEnd;
    OneToken(m, text, i);
    var e := EscapeEnd(text, i, 'm');
    if e > i {
      SkipToStop(m, text, e);
    }
  }

  /** Where going back from `i` leads: over the escapes that end at `i`; nothing when it runs off the front. */
  datatype Place = At(pos: nat) | Nowhere

  function ScanBack(m: string, i: nat): (r: Place)
    requires i < |m|
    ensures r.At? ==> r.pos <= i && m[r.pos] == ESC && forall k :: r.pos < k <= i ==> m[k] != ESC
    ensures r.Nowhere? ==> forall k :: 0 <= k <= i ==> m[k] != ESC
  {
    if m[i] == ESC then At(i) else if i == 0 then Nowhere else ScanBack(m, i - 1)
  }

  function Back(m: string, i: nat): (r: Place)
    requires i < |m|
    ensures r.At? ==> r.pos <= i && m[r.pos] != SENTINEL
    decreases i
  {
    if m[i] != SENTINEL then At(i)
    else
      match ScanBack(m, i)
      case Nowhere => Nowhere
      case At(j) => if j == 0 then Nowhere else Back(m, j - 1)
  }

  function Before(m: string, i: nat): Place
    requires i <= |m|
  {
    if i == 0 then Nowhere else Back(m, i - 1)
  }

  /** Going back from behind one escape. */
  lemma BackOverOne(m: string, i: nat, e: nat)
    requires i < e <= |m| && m[e - 1] == SENTINEL && m[i] == ESC && forall k :: i < k < e ==> m[k] != ESC
    ensures Before(m, e) == Before(m, i)
  {
    assert ScanBack(m, e - 1) == At(i);
  }

  /** Going back from behind a run of escapes leads to where going back from before it does. */
  lemma {:induction false} BackOverEscapes(m: string, text: string, i: nat)
    requires From(m, text, i)
    ensures Before(m, SkipEscapes(m, i, SENTINEL)) == Before(m, i)
    decreases |text| - i
  {
    hide From, Marked, Marks, EscapeEnd, Before;
    OneToken(m, text, i);
    var e := EscapeEnd(text, i, 'm');
    if e > i {
      BackOverOne(m, i, e);
      BackOverEscapes(m, text, e);
    }
  }

  /** The positions an iterator may take: the characters outside escapes, and the end. */
  function Positions(text: string): (ps: seq<nat>)
    ensures ps != [] && ps[|ps| - 1] == |text|
    ensures forall p :: p in ps ==> p <= |text|
  {
    Stops(text, 0) + [|text|]
  }

  /** One step in either direction, from position to position. */
  lemma {:induction false} StepsFrom(m: string, text: string, i: nat, k: nat)
    requires From(m, text, i) && k < |Stops(text, i)|
    ensures var ps := Stops(text, i) + [|text|];
      && ps[0] == SkipEscapes(m, i, SENTINEL)
      && ps[k] < ps[k + 1]
      && ps[k] < |m| && m[ps[k]] == text[ps[k]]
      && SkipEscapes(m, ps[k] + 1, SENTINEL) == ps[k + 1]
      && Before(m, ps[k + 1]) == At(ps[k])
    decreases k
  {
    hide From, Stops, SkipEscapes;
    SkipToStop(m, text, i);
    var p := SkipEscapes(m, i, SENTINEL);
    SkipToStop(m, text, p + 1);
    var ps := Stops(text, i) + [|text|];
    var later := Stops(text, p + 1) + [|text|];
    assert ps == [p] + later;
    if k == 0 {
      BackOverEscapes(m, text, p + 1);
    } else {
      StepsFrom(m, text, p + 1, k - 1);
      assert ps[k] == later[k - 1] && ps[k + 1] == later[k];
    }
  }

  /** For every text without the sentinel: the iterator starts at the first position, advancing moves it to
      the next one, going back undoes that, and the end is reached after as many steps as there are
      characters outside escapes. */
  lemma IteratorSteps(text: string, k: nat)
    requires SENTINEL !in text && k < |Positions(text)|
    ensures var m := Marked(text, 0);
      var ps := Positions(text);
      && ps[0] == SkipEscapes(m, 0, SENTINEL)
      && |ps| == |Stops(text, 0)| + 1
      && (ps[k] == |m| <==> k == |Stops(text, 0)|)
      && (k + 1 < |ps| ==>
            && ps[k] < ps[k + 1]
            && ps[k] < |m| && m[ps[k]] == text[ps[k]]
            && SkipEscapes(m, ps[k] + 1, SENTINEL) == ps[k + 1]
            && Before(m, ps[k + 1]) == At(ps[k]))
      && Before(m, ps[0]) == Nowhere
  {
    hide From, Stops, SkipEscapes, Marked, Restored, EscapeEnd;
    var m := Marked(text, 0);
    Whole(text);
    SkipToStop(m, text, 0);
    BackOverEscapes(m, text, 0);
    if k + 1 < |Positions(text)| {
      StepsFrom(m, text, 0, k);
    }
  }

  /** Putting the replaced characters back gives the text, exactly when it holds no sentinel itself. */
  lemma RestoresText(text: string)
    ensures Restored(Marked(text, 0)) == text <==> SENTINEL !in text
  {
    MarkedMarks(text, 0);
    assert text[0..] == text;
    var t := Restored(Marked(text, 0));
    if SENTINEL in text {
      var k :| 0 <= k < |text| && text[k] == SENTINEL;
      assert t[k] != text[k];
    }
  }

  /** Reads the text from `i` on for one escape. */
  method ReadEscape(s: string, i: nat, last: char) returns (e: nat)
    requires i <= |s|
    ensures e == EscapeEnd(s, i, last)
  {
    e := i;
    if i < |s| && s[i] == ESC && i + 1 < |s| && s[i + 1] == '[' {
      var cursor := i + 2;
      while cursor < |s| && IsParameter(s[cursor])
        invariant i + 2 <= cursor <= |s|
        invariant ParametersEnd(s, cursor) == ParametersEnd(s, i + 2)
      {
        cursor := cursor + 1;
      }
      if cursor < |s| && s[cursor] == last {
        e := cursor + 1;
      }
    }
  }

  /** `marked` is the text with the escapes before `i` marked. */
  ghost predicate MarkedUpTo(marked: string, text: string, i: nat) {
    && i <= |text| == |marked|
    && (forall k :: i <= k < |text| ==> marked[k] == text[k])
    && Marked(text, 0) == marked[..i] + Marked(text, i)
  }

  /** Marking one escape of a text that is marked up to it. */
  lemma MarkEscape(marked: string, text: string, i: nat)
    requires MarkedUpTo(marked, text, i)
    ensures EscapeEnd(marked, i, 'm') == EscapeEnd(text, i, 'm')
    ensures var e := EscapeEnd(text, i, 'm');
      e > i ==> MarkedUpTo(marked[e - 1 := SENTINEL], text, e)
  {
    SameEscape(marked, text, i);
    var e := EscapeEnd(text, i, 'm');
    if e > i {
      hide EscapeEnd;
      MarkPart(marked, text, i, e, Marked(text, e));
    }
  }

  lemma MarkPart(marked: string, text: string, i: nat, e: nat, rest: string)
    requires i < e <= |text| == |marked| && forall k :: i <= k < |text| ==> marked[k] == text[k]
    ensures var m := marked[e - 1 := SENTINEL];
      m[..e] + rest == marked[..i] + (text[i..e - 1] + [SENTINEL] + rest)
  {
    var m := marked[e - 1 := SENTINEL];
    assert m[..e] == marked[..i] + (text[i..e - 1] + [SENTINEL]);
    assert marked[..i] + (text[i..e - 1] + [SENTINEL] + rest) == marked[..i] + (text[i..e - 1] + [SENTINEL]) + rest;
  }

  lemma SameEscape(s: string, t: string, i: nat)
    requires i <= |s| == |t| && forall k :: i <= k < |s| ==> s[k] == t[k]
    ensures EscapeEnd(s, i, 'm') == EscapeEnd(t, i, 'm')
  {
    if i + 2 <= |s| {
      SameParameters(s, t, i + 2);
    }
  }

  lemma {:induction false} SameParameters(s: string, t: string, i: nat)
    requires i <= |s| == |t| && forall k :: i <= k < |s| ==> s[k] == t[k]
    ensures ParametersEnd(s, i) == ParametersEnd(t, i)
    decreases |s| - i
  {
    if i < |s| {
      SameParameters(s, t, i + 1);
    }
  }

  lemma MarkCharacter(marked: string, text: string, i: nat)
    requires MarkedUpTo(marked, text, i) && i < |text| && EscapeEnd(text, i, 'm') == i
    ensures MarkedUpTo(marked, text, i + 1)
    ensures |Stops(text, i)| == 1 + |Stops(text, i + 1)|
  {
    assert marked[..i + 1] == marked[..i] + [text[i]];
    assert marked[..i] + ([text[i]] + Marked(text, i + 1)) == marked[..i] + [text[i]] + Marked(text, i + 1);
  }

  lemma MarkStart(text: string)
    ensures MarkedUpTo(text, text, 0)
  {
    assert text[..0] + Marked(text, 0) == Marked(text, 0);
  }

  lemma MarkFinish(marked: string, text: string)
    requires MarkedUpTo(marked, text, |text|)
    ensures marked == Marked(text, 0)
  {
    assert marked[..|text|] == marked && Marked(text, |text|) == "";
  }

  /** Restoring a part of the marked text gives that part of the text. */
  lemma RestoresPart(text: string, from: nat, to: nat)
    requires SENTINEL !in text && from <= to <= |text|
    ensures Restored(Marked(text, 0)[from..to]) == text[from..to]
  {
    MarkedMarks(text, 0);
    var m := Marked(text, 0);
    forall k | 0 <= k < to - from ensures Restored(m[from..to])[k] == text[from..to][k] {
      assert m[from..to][k] == m[from + k] && text[0..][from + k] == text[from + k];
    }
  }

  /** A string that is iterated without its escapes. Iterators are copied freely, so they are the positions
      they hold. */
  class AnsiSkippingString {
    var marked: string
    var size: nat
    ghost const text: string

    ghost predicate Valid()
      reads this
    {
      marked == Marked(text, 0) && size == |Stops(text, 0)|
    }

    /** Replaces the end of every escape and counts the characters outside escapes. */
    constructor (text: string)
      ensures Valid() && this.text == text
    {
      this.text := text;
      marked := text;
      size := 0;
      new;
      PreprocessString();
    }

    method PreprocessString()
      requires marked == text && size == 0
      modifies this
      ensures Valid()
    {
      MarkStart(text);
      hide MarkedUpTo, EscapeEnd, Marked;
      var it := 0;
      while it < |marked|
        invariant it <= |text| == |marked|
        invariant MarkedUpTo(marked, text, it)
        invariant size + |Stops(text, it)| == |Stops(text, 0)|
      {
        ghost var stops, counted := |Stops(text, it)|, size;
        var cursor := ReadEscape(marked, it, 'm');
        MarkEscape(marked, text, it);
        while cursor > it
          invariant it <= cursor <= |marked| == |text|
          invariant cursor == EscapeEnd(text, it, 'm')
          invariant MarkedUpTo(marked, text, it)
          invariant cursor > it ==> MarkedUpTo(marked[cursor - 1 := SENTINEL], text, cursor)
          invariant |Stops(text, it)| == stops && size == counted
          decreases |marked| - it
        {
          marked := marked[cursor - 1 := SENTINEL];
          it := cursor;
          cursor := ReadEscape(marked, it, 'm');
          MarkEscape(marked, text, it);
        }
        if it < |marked| {
          MarkCharacter(marked, text, it);
          size := size + 1;
          it := it + 1;
        }
      }
      MarkFinish(marked, text);
    }

    /** The position of the first character outside escapes. */
    method Begin() returns (it: nat)
      requires Valid()
      ensures it == SkipEscapes(marked, 0, SENTINEL)
    {
      it := TryParseAnsiEscapes(0);
    }

    method TryParseAnsiEscapes(i: nat) returns (it: nat)
      requires i <= |marked|
      ensures it == SkipEscapes(marked, i, SENTINEL)
    {
      it := i;
      var cursor := ReadEscape(marked, it, SENTINEL);
      while cursor > it
        invariant it <= cursor <= |marked|
        invariant cursor == EscapeEnd(marked, it, SENTINEL)
        invariant SkipEscapes(marked, it, SENTINEL) == SkipEscapes(marked, i, SENTINEL)
        decreases |marked| - it
      {
        it := cursor;
        cursor := ReadEscape(marked, it, SENTINEL);
      }
    }

    method Advance(i: nat) returns (it: nat)
      requires i < |marked|
      ensures it == SkipEscapes(marked, i + 1, SENTINEL)
    {
      it := TryParseAnsiEscapes(i + 1);
    }

    /** Goes back to the character before; there must be one. */
    method Unadvance(i: nat) returns (it: nat)
      requires i <= |marked| && Before(marked, i).At?
      ensures At(it) == Before(marked, i)
    {
      it := i - 1;
      while marked[it] == SENTINEL
        invariant it < |marked|
        invariant Back(marked, it) == Before(marked, i)
        decreases it
      {
        ghost var end := it;
        while marked[it] != ESC
          invariant it <= end < |marked|
          invariant ScanBack(marked, it) == ScanBack(marked, end)
          invariant ScanBack(marked, end).At? && ScanBack(marked, end).pos > 0
          decreases it
        {
          it := it - 1;
        }
        it := it - 1;
      }
    }

    /** The text from one iterator to another, with the escapes in it; one at the very front belongs to it
        when `from` is the first position. */
    method Substring(from: nat, to: nat) returns (s: string)
      requires Valid() && from <= to <= |marked|
      ensures var start := if from == SkipEscapes(marked, 0, SENTINEL) then 0 else from;
        && |s| == to - start
        && (SENTINEL !in text ==> s == text[start..to])
        && s == Restored(marked[start..to])
    {
      var begin := Begin();
      var start := if from == begin then 0 else from;
      s := marked[start..to];
      var i := 0;
      while i < |s|
        invariant i <= |s| == to - start
        invariant forall k :: i <= k < |s| ==> s[k] == marked[start..to][k]
        invariant forall k :: 0 <= k < i ==> s[k] == Restored(marked[start..to])[k]
      {
        if s[i] == SENTINEL {
          s := s[i := 'm'];
        }
        i := i + 1;
      }
      if SENTINEL !in text {
        RestoresPart(text, start, to);
      }
    }
  }
}
