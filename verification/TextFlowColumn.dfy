/** The line iterator of a column, over a text in which ANSI escapes are skipped. */
module TextFlowColumn {
  import opened AnsiText
  import opened TextFlow
  import opened Wrappers

  /** The characters outside escapes. */
  function VisibleText(text: string): (v: string)
    ensures |v| == |Stops(text, 0)|
  {
    var ps := Stops(text, 0);
    seq(|ps|, k requires 0 <= k < |ps| => assert ps[k] in ps; text[ps[k]])
  }

  /** `pos` is where an iterator that has been advanced `k` times from the beginning stands. */
  ghost predicate StandsAt(s: AnsiSkippingString, pos: nat, k: nat)
    reads s
  {
    && s.Valid() && SENTINEL !in s.text
    && k <= |VisibleText(s.text)| && pos == Positions(s.text)[k]
  }

  lemma Standing(s: AnsiSkippingString, pos: nat, k: nat)
    requires StandsAt(s, pos, k)
    ensures s.Valid() && SENTINEL !in s.text && k <= |VisibleText(s.text)|
    ensures pos <= |s.marked| && (pos == |s.marked| <==> k == |VisibleText(s.text)|)
    ensures k < |VisibleText(s.text)| ==> s.marked[pos] == VisibleText(s.text)[k]
  {
    IteratorSteps(s.text, k);
  }

  lemma Ordered(s: AnsiSkippingString, pos: nat, k: nat, pos': nat, k': nat)
    requires StandsAt(s, pos, k) && StandsAt(s, pos', k') && k <= k'
    ensures pos <= pos' && (pos == pos' <==> k == k')
    decreases k' - k
  {
    if k < k' {
      IteratorSteps(s.text, k);
      Ordered(s, Positions(s.text)[k + 1], k + 1, pos', k');
    }
  }

  method First(s: AnsiSkippingString) returns (pos: nat)
    requires s.Valid() && SENTINEL !in s.text
    ensures StandsAt(s, pos, 0)
  {
    pos := s.Begin();
    IteratorSteps(s.text, 0);
  }

  method Following(s: AnsiSkippingString, pos: nat, ghost k: nat) returns (next: nat)
    requires StandsAt(s, pos, k) && k < |VisibleText(s.text)|
    ensures StandsAt(s, next, k + 1)
  {
    IteratorSteps(s.text, k);
    next := s.Advance(pos);
  }

  method OneBefore(s: AnsiSkippingString, pos: nat, ghost k: nat) returns (before: nat)
    requires StandsAt(s, pos, k) && k > 0
    ensures StandsAt(s, before, k - 1)
  {
    IteratorSteps(s.text, k - 1);
    Standing(s, pos, k);
    before := s.Unadvance(pos);
  }

  method IsBoundaryAt(s: AnsiSkippingString, pos: nat, ghost k: nat) returns (b: bool)
    requires StandsAt(s, pos, k) && k > 0
    ensures b == IsBoundary(VisibleText(s.text), k)
  {
    hide StandsAt;
    Standing(s, pos, k);
    if pos == |s.marked| { return true; }
    var before := OneBefore(s, pos, k);
    Standing(s, before, k - 1);
    b := (IsWhitespace(s.marked[pos]) && !IsWhitespace(s.marked[before]))
         || IsBreakableBefore(s.marked[pos]) || IsBreakableAfter(s.marked[before]);
  }

  /** Goes on from `from` until the room is used, a newline comes or the text ends. */
  method FillLine(s: AnsiSkippingString, from: nat, ghost start: nat, room: nat)
          returns (parsedTo: nat, lineLength: nat)
    requires StandsAt(s, from, start)
    ensures var stop := Fill(VisibleText(s.text), start, room);
      StandsAt(s, parsedTo, stop) && lineLength == stop - start
  {
    hide StandsAt, VisibleText;
    ghost var v := VisibleText(s.text);
    ghost var k: nat := start;
    parsedTo, lineLength := from, 0;
    Standing(s, parsedTo, k);
    while parsedTo != |s.marked| && lineLength < room && s.marked[parsedTo] != '\n'
      invariant StandsAt(s, parsedTo, k) && lineLength <= room && k == start + lineLength <= |v|
      invariant parsedTo <= |s.marked| && (parsedTo == |s.marked| <==> k == |v|)
      invariant k < |v| ==> s.marked[parsedTo] == v[k]
      invariant Fill(v, k, room - lineLength) == Fill(v, start, room)
      decreases room - lineLength
    {
      parsedTo := Following(s, parsedTo, k);
      lineLength := lineLength + 1;
      k := k + 1;
      Standing(s, parsedTo, k);
    }
  }

  /** Goes back over at most `length` characters to the last boundary, then over the whitespace before it. */
  method BackUp(s: AnsiSkippingString, from: nat, ghost stop: nat, length: nat) returns (lineEnd: nat, lineLength: nat)
    requires StandsAt(s, from, stop) && length <= stop <= |VisibleText(s.text)|
    ensures var v := VisibleText(s.text);
      var low := stop - length;
      var end := BackOverSpace(v, low, BackToBoundary(v, low, stop));
      StandsAt(s, lineEnd, end) && lineLength == end - low
  {
    hide StandsAt, VisibleText, IsBoundary;
    ghost var v := VisibleText(s.text);
    ghost var low := stop - length;
    ghost var k: nat := stop;
    lineEnd, lineLength := from, length;
    while lineLength > 0
      invariant StandsAt(s, lineEnd, k) && lineLength <= length && k == low + lineLength
      invariant BackToBoundary(v, low, k) == BackToBoundary(v, low, stop)
    {
      var boundary := IsBoundaryAt(s, lineEnd, k);
      if boundary { break; }
      lineLength := lineLength - 1;
      lineEnd := OneBefore(s, lineEnd, k);
      k := k - 1;
    }
    ghost var b := BackToBoundary(v, low, stop);
    while lineLength > 0
      invariant StandsAt(s, lineEnd, k) && lineLength <= length && k == low + lineLength <= b
      invariant BackOverSpace(v, low, k) == BackOverSpace(v, low, b)
    {
      var before := OneBefore(s, lineEnd, k);
      Standing(s, before, k - 1);
      if !IsWhitespace(s.marked[before]) { break; }
      lineLength := lineLength - 1;
      lineEnd := before;
      k := k - 1;
    }
  }

  /** The end of the line that starts at `lineStart`, how far the text was looked at, and whether a hyphen
      is needed. */
  method BreakLine(s: AnsiSkippingString, c: Layout, lineStart: nat, ghost start: nat, maxLineLength: nat)
    returns (lineEnd: nat, parsedTo: nat, addHyphen: bool)
    requires StandsAt(s, lineStart, start) && start < |VisibleText(s.text)|
    requires c.Valid() && maxLineLength == c.Room(start)
    ensures var line := LineAt(VisibleText(s.text), c, start);
      StandsAt(s, lineEnd, line.end) && addHyphen == line.hyphen
    ensures StandsAt(s, parsedTo, LookedTo(VisibleText(s.text), c, start))
  {
    hide StandsAt, VisibleText, IsBoundary;
    ghost var v := VisibleText(s.text);
    addHyphen := false;
    parsedTo := lineStart;
    Standing(s, lineStart, start);
    if s.marked[lineStart] == '\n' {
      parsedTo := Following(s, parsedTo, start);
    }
    ghost var from := TextStart(v, start);
    var lineLength;
    parsedTo, lineLength := FillLine(s, parsedTo, from, maxLineLength);
    ghost var stop := Fill(v, from, maxLineLength);
    if lineLength < maxLineLength {
      lineEnd := parsedTo;
    } else {
      lineEnd, lineLength := BackUp(s, parsedTo, stop, lineLength);
      if lineLength == 0 {
        addHyphen := true;
        lineEnd := OneBefore(s, parsedTo, stop);
      }
    }
  }

  /** Where the next line starts. */
  method SkipToNext(s: AnsiSkippingString, from: nat, ghost end: nat) returns (lineStart: nat)
    requires StandsAt(s, from, end)
    ensures StandsAt(s, lineStart, NextStart(VisibleText(s.text), end))
  {
    hide StandsAt, VisibleText;
    ghost var v := VisibleText(s.text);
    ghost var k: nat := end;
    lineStart := from;
    Standing(s, lineStart, k);
    if lineStart != |s.marked| && s.marked[lineStart] == '\n' {
      lineStart := Following(s, lineStart, k);
    } else {
      while lineStart != |s.marked| && IsWhitespace(s.marked[lineStart])
        invariant StandsAt(s, lineStart, k) && k <= |v|
        invariant lineStart <= |s.marked| && (lineStart == |s.marked| <==> k == |v|)
        invariant k < |v| ==> s.marked[lineStart] == v[k]
        invariant SkipSpace(v, k) == SkipSpace(v, end)
        decreases |v| - k
      {
        lineStart := Following(s, lineStart, k);
        k := k + 1;
        Standing(s, lineStart, k);
      }
    }
  }

  /** The text of a line with the escapes in and right behind it; those at the very front of the text belong
      to the first line. */
  function LineText(text: string, line: Line): string
    requires line.start <= line.end <= |VisibleText(text)|
  {
    var from := if line.start == 0 then 0 else Positions(text)[line.start];
    if from <= Positions(text)[line.end] <= |text| then text[from..Positions(text)[line.end]] else ""
  }

  function Spaces(n: nat): string {
    seq(n, _ => ' ')
  }

  /** What is written for a line. */
  function Rendered(text: string, c: Layout, line: Line): string
    requires line.start <= line.end <= |VisibleText(text)|
  {
    Spaces(c.IndentSize(line.start)) + LineText(text, line) + (if line.hyphen then "-" else "")
  }

  class ColumnIterator {
    const text: AnsiSkippingString
    const layout: Layout
    var lineStart: nat
    var lineEnd: nat
    var parsedTo: nat
    var addHyphen: bool
    /** The same state in visible characters. */
    ghost var line: Line
    ghost var parsed: nat

    ghost function V(): string
      reads text
    {
      VisibleText(text.text)
    }

    ghost predicate Valid()
      reads this, text
    {
      && layout.Valid()
      && StandsAt(text, lineStart, line.start) && StandsAt(text, lineEnd, line.end) && StandsAt(text, parsedTo, parsed)
      && addHyphen == line.hyphen
    }

    constructor (text: AnsiSkippingString, layout: Layout)
      requires text.Valid() && SENTINEL !in text.text && layout.Valid()
      ensures Valid() && this.text == text && this.layout == layout
      ensures line == FirstLine(V(), layout)
      ensures line.start < |V()| ==> parsed == LookedTo(V(), layout, line.start)
    {
      var begin := First(text);
      this.text := text;
      this.layout := layout;
      lineStart := begin;
      lineEnd := begin;
      parsedTo := begin;
      addHyphen := false;
      line := Line(0, 0, false);
      parsed := 0;
      new;
      CalcLength();
      Ordered(text, lineStart, line.start, lineEnd, line.end);
      if lineStart == lineEnd {
        lineStart := |text.marked|;
        line := line.(start := |V()|);
        IteratorSteps(text.text, |V()|);
      }
    }

    /** The indentation of the line that starts at `lineStart`. */
    method IndentSize() returns (n: nat)
      requires Valid()
      ensures n == layout.IndentSize(line.start)
    {
      var begin := First(text);
      Ordered(text, begin, 0, lineStart, line.start);
      n := if lineStart == begin && layout.initialIndent.Some? then layout.initialIndent.value else layout.indent;
    }

    /** Finds the end of the line that starts at `lineStart`, and how far the text is looked at for it. */
    method CalcLength()
      requires Valid()
      modifies this
      ensures Valid() && lineStart == old(lineStart)
      ensures line == if old(line).start == |V()| then Line(|V()|, |V()|, false)
          else LineAt(V(), layout, old(line).start)
      ensures parsed == if old(line).start == |V()| then |V()| else LookedTo(V(), layout, old(line).start)
    {
      hide StandsAt, VisibleText, LineAt, LookedTo;
      ghost var v := V();
      ghost var start := line.start;
      Standing(text, lineStart, start);
      var indent := IndentSize();
      addHyphen := false;
      parsedTo := lineStart;
      Standing(text, parsedTo, start);
      if parsedTo == |text.marked| {
        lineEnd := parsedTo;
        line := Line(start, start, false);
        parsed := start;
        return;
      }
      lineEnd, parsedTo, addHyphen := BreakLine(text, layout, lineStart, start, layout.width - indent);
      line := LineAt(v, layout, start);
      parsed := LookedTo(v, layout, start);
    }

    /** Moves to the next line. */
    method Increment()
      requires Valid()
      modifies this
      ensures Valid() && line == NextLine(V(), layout, old(line))
      ensures line.start < |V()| ==> parsed == LookedTo(V(), layout, line.start)
    {
      hide StandsAt, VisibleText;
      Standing(text, lineEnd, line.end);
      ghost var start := NextStart(V(), line.end);
      lineStart := SkipToNext(text, lineEnd, line.end);
      line := line.(start := start);
      Standing(text, lineStart, start);
      if lineStart != |text.marked| {
        CalcLength();
      }
    }

    /** The current line as it is written. */
    method Current() returns (s: string)
      requires Valid() && line.start <= line.end <= |V()| && lineStart <= parsedTo
      ensures s == Rendered(text.text, layout, line)
    {
      hide StandsAt, VisibleText, AnsiSkippingString.Valid, LineText, Restored, Marked, SkipEscapes;
      Standing(text, lineStart, line.start);
      var indent := IndentSize();
      var begin := First(text);
      Ordered(text, begin, 0, lineStart, line.start);
      Ordered(text, lineStart, line.start, lineEnd, line.end);
      Standing(text, lineEnd, line.end);
      var part := text.Substring(lineStart, lineEnd);
      PartOfLine(text, begin, lineStart, lineEnd, line);
      s := Spaces(indent) + part;
      if addHyphen {
        s := s + "-";
      }
    }
  }

  lemma PartOfLine(s: AnsiSkippingString, begin: nat, from: nat, to: nat, line: Line)
    requires StandsAt(s, begin, 0) && StandsAt(s, from, line.start) && StandsAt(s, to, line.end) && from <= to
        && line.start <= line.end
    requires begin == from <==> line.start == 0
    ensures line.end <= |VisibleText(s.text)| && to <= |s.text|
    ensures begin == SkipEscapes(s.marked, 0, SENTINEL)
    ensures LineText(s.text, line) == s.text[if from == SkipEscapes(s.marked, 0, SENTINEL) then 0 else from..to]
  {
    Standing(s, to, line.end);
    IteratorSteps(s.text, 0);
    hide Marked, SkipEscapes, Stops;
  }

  /** The lines of a column, separated by newlines. */
  function Output(text: string, c: Layout, lines: seq<Line>): string
    requires forall k :: 0 <= k < |lines| ==> lines[k].start <= lines[k].end <= |VisibleText(text)|
  {
    if lines == [] then ""
    else
      var last := |lines| - 1;
      Output(text, c, lines[..last]) + (if last == 0 then "" else "\n") + Rendered(text, c, lines[last])
  }

  /** Writes a column to a stream: all its lines, without the escapes counting as text. */
  method Write(text: AnsiSkippingString, c: Layout) returns (os: string)
    requires text.Valid() && SENTINEL !in text.text && c.Valid() && Ends(VisibleText(text.text), c)
    ensures var v := VisibleText(text.text);
      && (forall k :: 0 <= k < |AllLines(v, c)| ==> AllLines(v, c)[k].start <= AllLines(v, c)[k].end <= |v|)
      && os == Output(text.text, c, AllLines(v, c))
  {
    hide StandsAt, VisibleText, Rendered, AllLines, Ends, Nth, GoodLine, FirstLine, NextLine, Flow;
    ghost var v := VisibleText(text.text);
    ghost var lines := AllLines(v, c);
    StatesOfColumn(v, c);
    ghost var n := 0;
    os := "";
    var first := true;
    var it := new ColumnIterator(text, c);
    Standing(text, it.lineStart, it.line.start);
    while it.lineStart != |text.marked|
      invariant it.Valid() && it.text == text && it.layout == c && fresh(it)
      invariant it.line == Nth(v, c, n) && n <= |lines|
      invariant it.lineStart == |text.marked| <==> it.line.start == |v|
      invariant it.line.start < |v| ==> it.line.start <= it.parsed
      invariant os == Output(text.text, c, lines[..n]) && first == (n == 0)
      decreases |lines| - n
    {
      if first {
        first := false;
      } else {
        os := os + "\n";
      }
      Ordered(text, it.lineStart, it.line.start, it.parsedTo, it.parsed);
      var s := it.Current();
      os := os + s;
      OutputStep(text.text, c, lines, n);
      it.Increment();
      n := n + 1;
      Standing(text, it.lineStart, it.line.start);
    }
    assert lines[..n] == lines;
  }

  lemma OutputStep(text: string, c: Layout, lines: seq<Line>, n: nat)
    requires n < |lines| && forall k :: 0 <= k < |lines| ==> lines[k].start <= lines[k].end <= |VisibleText(text)|
    ensures Output(text, c, lines[..n + 1]) == Output(text, c, lines[..n]) + (if n == 0 then "" else "\n")
        + Rendered(text, c, lines[n])
  {
    assert lines[..n + 1][..n] == lines[..n];
  }

  lemma StatesOfColumn(v: string, c: Layout)
    requires c.Valid() && Ends(v, c)
    ensures var lines := AllLines(v, c);
      && Nth(v, c, 0) == FirstLine(v, c)
      && (forall k :: 0 <= k < |lines| ==>
                      Nth(v, c, k) == lines[k] && lines[k].start < |v| && lines[k].start <= lines[k].end <= |v|)
      && (forall k :: 0 <= k < |lines| ==> NextLine(v, c, lines[k]) == Nth(v, c, k + 1))
      && Nth(v, c, |lines|).start == |v|
  {
    ColumnFlow(v, c);
    var lines := AllLines(v, c);
    forall k | 0 <= k < |lines| ensures NextLine(v, c, lines[k]) == Nth(v, c, k + 1)
        && lines[k].start <= lines[k].end <= |v| {
      NthStep(v, c, k, lines[k]);
    }
  }

  /** Without escapes every character is visible, and a line is the text from its start to its end. */
  lemma {:induction false} PlainStops(text: string, i: nat)
    requires ESC !in text && i <= |text|
    ensures |Stops(text, i)| == |text| - i && forall k :: 0 <= k < |text| - i ==> Stops(text, i)[k] == i + k
    decreases |text| - i
  {
    if i < |text| {
      PlainStops(text, i + 1);
    }
  }

  lemma PlainLines(text: string, line: Line)
    requires ESC !in text && line.start <= line.end <= |text|
    ensures VisibleText(text) == text && LineText(text, line) == text[line.start..line.end]
  {
    PlainStops(text, 0);
  }

  /** How a line of a text without escapes is written: its indentation, its text, and a hyphen or none. */
  lemma PlainRendered(text: string, c: Layout, line: Line, indent: nat, length: nat)
    requires ESC !in text && line.start <= line.end <= |text| && length == line.end - line.start
    requires indent == if line.start == 0 && c.initialIndent.Some? then c.initialIndent.value else c.indent
    ensures VisibleText(text) == text
    ensures var r := Rendered(text, c, line);
      && |r| == indent + length + (if line.hyphen then 1 else 0)
      && (forall k :: 0 <= k < indent ==> r[k] == ' ')
      && r[indent..indent + length] == text[line.start..line.end]
      && (line.hyphen ==> r[indent + length] == '-')
  {
    PlainLines(text, line);
  }

  /** Two columns written below each other are separated by one newline. */
  lemma {:induction false} OutputJoins(text: string, c: Layout, upper: seq<Line>, lower: seq<Line>)
    requires upper != [] && lower != []
    requires forall k :: 0 <= k < |upper| ==> upper[k].start <= upper[k].end <= |VisibleText(text)|
    requires forall k :: 0 <= k < |lower| ==> lower[k].start <= lower[k].end <= |VisibleText(text)|
    ensures Output(text, c, upper + lower) == Output(text, c, upper) + "\n" + Output(text, c, lower)
    decreases |lower|
  {
    hide VisibleText, Rendered;
    var last := |lower| - 1;
    assert (upper + lower)[..|upper| + last] == upper + lower[..last];
    if last > 0 {
      OutputJoins(text, c, upper, lower[..last]);
      Regroup(Output(text, c, upper) + "\n", Output(text, c, lower[..last]), "\n", Rendered(text, c, lower[last]));
    } else {
      assert upper + lower[..last] == upper;
      assert Output(text, c, lower) == Rendered(text, c, lower[0]);
    }
  }

  lemma Regroup(a: string, b: string, d: string, e: string)
    ensures a + b + d + e == a + (b + d + e)
  {
  }

  /** "hello world" in a column of width 8 is written on two lines. */
  lemma HelloWorldWritten(text: string, c: Layout)
    requires text == "hello world" && c == Layout(8, 0, None)
    ensures VisibleText(text) == text && Ends(text, c)
    ensures AllLines(text, c) == [Line(0, 5, false), Line(6, 11, false)]
    ensures Output(text, c, AllLines(text, c)) == "hello\nworld"
  {
    hide VisibleText, Rendered, AllLines, Ends, Output;
    HelloWorldLines(text);
    HelloWorldRendered(text);
    TwoLines(text, c, Line(0, 5, false), Line(6, 11, false));
    TwoWords();
  }

  lemma TwoWords()
    ensures "hello" + "\n" + "world" == "hello\nworld"
  {
  }

  lemma TwoLines(text: string, c: Layout, first: Line, second: Line)
    requires first.start <= first.end <= |VisibleText(text)| && second.start <= second.end <= |VisibleText(text)|
    ensures Output(text, c, [first, second]) == Rendered(text, c, first) + "\n" + Rendered(text, c, second)
  {
    hide VisibleText, Rendered;
    assert [first] + [second] == [first, second];
    assert [first][..0] == [] && [second][..0] == [];
    OutputJoins(text, c, [first], [second]);
  }

  lemma TwoLinesFrom(v: string, c: Layout, first: Line, second: Line)
    requires c.Valid() && Ends(v, c) && 0 < second.start < |v| && 0 < first.end
    requires LineAt(v, c, 0) == first && LineAt(v, c, second.start) == second
    requires first.end <= |v| && NextStart(v, first.end) == second.start
    requires second.end <= |v| && NextStart(v, second.end) == |v|
    ensures AllLines(v, c) == [first, second]
  {
    hide LineAt, NextStart, Ends;
    assert !Dropped(v, c);
    assert LinesFrom(v, c, second.start) == [second] + LinesFrom(v, c, |v|);
  }

  lemma HelloWorldLines(v: string)
    requires v == "hello world"
    ensures var c := Layout(8, 0, None);
      Ends(v, c) && AllLines(v, c) == [Line(0, 5, false), Line(6, 11, false)] && VisibleText(v) == v
  {
    var c := Layout(8, 0, None);
    PlainRendered(v, c, Line(0, 5, false), 0, 5);
    hide LineAt, VisibleText, NextStart, Rendered;
    HelloWorld(v);
    NextStartMeans(v, 11);
    TwoLinesFrom(v, c, Line(0, 5, false), Line(6, 11, false));
  }

  lemma HelloWorldRendered(v: string)
    requires v == "hello world"
    ensures VisibleText(v) == v && Rendered(v, Layout(8, 0, None), Line(0, 5, false)) == "hello"
    ensures Rendered(v, Layout(8, 0, None), Line(6, 11, false)) == "world"
  {
    hide VisibleText, Rendered;
    PlainRendered(v, Layout(8, 0, None), Line(0, 5, false), 0, 5);
    PlainRendered(v, Layout(8, 0, None), Line(6, 11, false), 0, 5);
    assert v[0..5] == "hello" && v[6..11] == "world";
  }
}
