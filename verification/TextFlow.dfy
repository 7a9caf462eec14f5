/** Breaking a text into the lines of a column. Positions count the characters outside ANSI escapes. */
module TextFlow {
  import opened Wrappers

  predicate IsWhitespace(c: char) {
    c == ' ' || c == '\t' || c == '\n' || c == '\r'
  }

  predicate IsBreakableBefore(c: char) {
    c in "[({<|"
  }

  predicate IsBreakableAfter(c: char) {
    c in "])}>.,:;*+-=&/\\"
  }

  datatype Layout = Layout(width: nat, indent: nat, initialIndent: Option<nat>) {
    /** What the source asserts of every column it iterates. */
    predicate Valid() {
      width > indent && (initialIndent.Some? ==> width > initialIndent.value)
    }

    function IndentSize(start: nat): nat {
      if start == 0 && initialIndent.Some? then initialIndent.value else indent
    }

    /** The room for text in the line that starts at `start`. */
    function Room(start: nat): (r: nat)
      requires Valid()
      ensures r > 0
    {
      width - IndentSize(start)
    }
  }

  /** A line: the text from `start` to `end`, and whether a hyphen follows it. */
  datatype Line = Line(start: nat, end: nat, hyphen: bool)

  predicate IsBoundary(v: string, i: nat)
    requires 0 < i <= |v|
  {
    i == |v| || (IsWhitespace(v[i]) && !IsWhitespace(v[i - 1])) || IsBreakableBefore(v[i]) || IsBreakableAfter(v[i - 1])
  }

  /** A newline at the start of a line takes no room. */
  function TextStart(v: string, start: nat): nat
    requires start < |v|
  {
    if v[start] == '\n' then start + 1 else start
  }

  /** How far `room` characters without a newline reach. */
  function Fill(v: string, from: nat, room: nat): (stop: nat)
    requires from <= |v|
    ensures from <= stop <= |v| && stop - from <= room
    ensures forall i :: from <= i < stop ==> v[i] != '\n'
    ensures stop - from < room && stop < |v| ==> v[stop] == '\n'
    decreases room
  {
    if from < |v| && room > 0 && v[from] != '\n' then Fill(v, from + 1, room - 1) else from
  }

  /** The last boundary after `low` and up to `e`, or `low`. */
  function BackToBoundary(v: string, low: nat, e: nat): (b: nat)
    requires low <= e <= |v|
    ensures low <= b <= e
    ensures b > low ==> IsBoundary(v, b)
    ensures forall i :: b < i <= e ==> !IsBoundary(v, i)
    decreases e
  {
    if e == low || IsBoundary(v, e) then e else BackToBoundary(v, low, e - 1)
  }

  function BackOverSpace(v: string, low: nat, e: nat): (b: nat)
    requires low <= e <= |v|
    ensures low <= b <= e
    ensures b > low ==> !IsWhitespace(v[b - 1])
    ensures forall i :: b <= i < e ==> IsWhitespace(v[i])
    decreases e
  {
    if e > low && IsWhitespace(v[e - 1]) then BackOverSpace(v, low, e - 1) else e
  }

  /** How far the text is looked at for the line that starts at `start`. */
  function LookedTo(v: string, c: Layout, start: nat): (stop: nat)
    requires c.Valid() && start < |v|
    ensures start <= stop <= |v|
  {
    Fill(v, TextStart(v, start), c.Room(start))
  }

  /** The line that starts at `start`. */
  function LineAt(v: string, c: Layout, start: nat): (line: Line)
    requires c.Valid() && start < |v|
    ensures line.start == start <= line.end <= |v|
  {
    var from := TextStart(v, start);
    var stop := LookedTo(v, c, start);
    if stop - from < c.Room(start) then Line(start, stop, false)
    else
      var end := BackOverSpace(v, from, BackToBoundary(v, from, stop));
      if end == from then Line(start, stop - 1, true) else Line(start, end, false)
  }

  function SkipSpace(v: string, i: nat): (j: nat)
    requires i <= |v|
    ensures i <= j <= |v|
    ensures forall k :: i <= k < j ==> IsWhitespace(v[k])
    ensures j < |v| ==> !IsWhitespace(v[j])
    decreases |v| - i
  {
    if i < |v| && IsWhitespace(v[i]) then SkipSpace(v, i + 1) else i
  }

  /** Where the line after one that ends at `end` starts: one newline is skipped, or any other whitespace. */
  function NextStart(v: string, end: nat): (start: nat)
    requires end <= |v|
    ensures end <= start <= |v|
    ensures forall k :: end <= k < start ==> IsWhitespace(v[k])
  {
    if end < |v| && v[end] == '\n' then end + 1 else SkipSpace(v, end)
  }

  /** The state of a new iterator; an empty first line makes it an end iterator at once. */
  function FirstLine(v: string, c: Layout): (line: Line)
    requires c.Valid()
    ensures line.start <= |v| && line.end <= |v|
  {
    if v == "" then Line(0, 0, false)
    else
      var line := LineAt(v, c, 0);
      if line.end == 0 then line.(start := |v|) else line
  }

  /** The state after incrementing the iterator. */
  function NextLine(v: string, c: Layout, line: Line): (next: Line)
    requires c.Valid() && line.end <= |v|
    ensures next.start <= |v| && next.end <= |v|
  {
    var start := NextStart(v, line.end);
    if start < |v| then LineAt(v, c, start) else line.(start := start)
  }

  /** The state after `n` increments. */
  function Nth(v: string, c: Layout, n: nat): (line: Line)
    requires c.Valid()
    ensures line.start <= |v| && line.end <= |v|
  {
    if n == 0 then FirstLine(v, c) else NextLine(v, c, Nth(v, c, n - 1))
  }

  /** A line of more than one column always takes some text. */
  lemma LineProgress(v: string, c: Layout, start: nat)
    requires c.Valid() && start < |v|
    ensures LineAt(v, c, start).end > start
            <==> c.Room(start) >= 2 || v[start] == '\n' || (!IsWhitespace(v[start]) && IsBoundary(v, start + 1))
  {
    var from := TextStart(v, start);
    var stop := Fill(v, from, c.Room(start));
    if v[start] != '\n' && c.Room(start) == 1 {
      assert Fill(v, start, 1) == Fill(v, start + 1, 0) == start + 1;
    }
  }

  /** Every visible character from `from` on can be broken after. */
  ghost predicate BreakableFrom(v: string, from: nat) {
    forall i :: from <= i < |v| && !IsWhitespace(v[i]) ==> IsBoundary(v, i + 1)
  }

  /** Whether the first line is empty, and the iterator therefore an end iterator at once. */
  predicate Dropped(v: string, c: Layout)
    requires c.Valid()
  {
    v != "" && LineAt(v, c, 0).end == 0
  }

  /** The first line is empty if and only if it has room for one character and cannot be broken after it. */
  lemma DroppedIff(v: string, c: Layout)
    requires c.Valid()
    ensures Dropped(v, c) <==>
              v != "" && c.Room(0) == 1 && v[0] != '\n' && (IsWhitespace(v[0]) || !IsBoundary(v, 1))
  {
    if v != "" {
      LineProgress(v, c, 0);
    }
  }

  /** Later lines have room for two characters, or every visible character behind the first line can be broken
      after, or the first line is empty. */
  ghost predicate Ends(v: string, c: Layout)
    requires c.Valid()
  {
    c.width >= c.indent + 2 || v == "" || Dropped(v, c) || BreakableFrom(v, LineAt(v, c, 0).end)
  }

  /** Lines start at the front or behind the first line. */
  ghost predicate Reached(v: string, c: Layout, start: nat)
    requires c.Valid()
  {
    start <= |v| && (v != "" ==> !Dropped(v, c) && (start == 0 || start >= LineAt(v, c, 0).end))
  }

  /** The next line starts further on, even behind a line that takes no text. */
  lemma StartGrows(v: string, c: Layout, line: Line)
    requires c.Valid() && line.start < |v| && line == LineAt(v, c, line.start) && Ends(v, c)
        && Reached(v, c, line.start)
    ensures NextStart(v, line.end) > line.start && Reached(v, c, NextStart(v, line.end))
  {
    LineProgress(v, c, line.start);
    hide LineAt;
  }

  /** The lines from `start` on. */
  ghost function LinesFrom(v: string, c: Layout, start: nat): seq<Line>
    requires c.Valid() && Ends(v, c) && start <= |v| && Reached(v, c, start)
    decreases |v| - start
  {
    if start >= |v| then []
    else
      var line := LineAt(v, c, start);
      StartGrows(v, c, line);
      [line] + LinesFrom(v, c, NextStart(v, line.end))
  }

  /** What iterating a column yields. */
  ghost function AllLines(v: string, c: Layout): seq<Line>
    requires c.Valid() && Ends(v, c)
  {
    if Dropped(v, c) then [] else LinesFrom(v, c, 0)
  }

  /** Incrementing the iterator as often as there are lines goes through them and reaches the end. */
  lemma {:induction false} LinesAreStates(v: string, c: Layout, n: nat, start: nat, k: nat)
    requires c.Valid() && Ends(v, c) && start <= |v| && Reached(v, c, start)
    requires start == |v| ==> Nth(v, c, n).start == |v|
    requires start < |v| ==> Nth(v, c, n) == LineAt(v, c, start)
    ensures var lines := LinesFrom(v, c, start);
      && (k < |lines| ==> Nth(v, c, n + k) == lines[k] && lines[k].start < |v|)
      && Nth(v, c, n + |lines|).start == |v|
    decreases |v| - start
  {
    hide LineAt, Nth, NextStart, Ends, Reached;
    if start < |v| {
      var line := LineAt(v, c, start);
      StartGrows(v, c, line);
      NthStep(v, c, n, line);
      LinesAreStates(v, c, n + 1, NextStart(v, line.end), if k > 0 then k - 1 else 0);
    }
  }

  lemma NthStep(v: string, c: Layout, n: nat, line: Line)
    requires c.Valid() && Nth(v, c, n) == line
    ensures line.end <= |v| && Nth(v, c, n + 1) == NextLine(v, c, line)
  {
  }

  /** Properties of one line: it fits, has no newline but at its start, and ends at a good place. */
  ghost predicate GoodLine(v: string, c: Layout, line: Line)
    requires c.Valid() && line.start <= line.end <= |v|
  {
    var from := if line.start < |v| then TextStart(v, line.start) else line.start;
    && c.IndentSize(line.start) + (line.end - from) + (if line.hyphen then 1 else 0) <= c.width
    && (forall i :: line.start < i < line.end ==> v[i] != '\n')
    && BestBreak(v, c, from, line)
  }

  /** A line is cut short of the room only at a newline or the end of the text, or to end with the last word
      that some boundary within the room follows; a hyphen is put only when no boundary within the room has
      any character before it that is not whitespace, and it then takes the last place of the room. */
  ghost predicate BestBreak(v: string, c: Layout, from: nat, line: Line)
    requires c.Valid() && line.end <= |v|
  {
    var room := c.Room(line.start);
    if line.hyphen then
      && line.end + 1 == from + room <= |v|
      && (forall i, b :: from <= i < b <= from + room && IsBoundary(v, b) && (forall j ::
          b < j <= from + room ==> !IsBoundary(v, j)) ==>
            IsWhitespace(v[i]))
    else
      || (line.end - from < room && (line.end == |v| || v[line.end] == '\n'))
      || (exists b :: from < line.end <= b <= from + room && b <= |v| && IsBoundary(v, b)
                      && !IsWhitespace(v[line.end - 1])
                      && (forall i :: line.end <= i < b ==> IsWhitespace(v[i]))
                      && (forall i :: b < i <= from + room && i <= |v| ==> !IsBoundary(v, i)))
  }

  lemma LineIsGood(v: string, c: Layout, start: nat)
    requires c.Valid() && start < |v|
    ensures GoodLine(v, c, LineAt(v, c, start))
  {
    var from := TextStart(v, start);
    var room := c.Room(start);
    var stop := Fill(v, from, room);
    var line := LineAt(v, c, start);
    if stop - from == room {
      var b := BackToBoundary(v, from, stop);
      assert b > from ==> IsBoundary(v, b);
      if line.hyphen {
        forall i, b' | from <= i < b' <= stop && IsBoundary(v, b') && (forall j :: b' < j <= stop ==> !IsBoundary(v, j))
          ensures IsWhitespace(v[i])
        {
          assert b' <= b;
        }
      }
    }
  }

  /** A line may be broken before position `j`: at the end of the text, between a word and whitespace, before an
      opening bracket, or behind a closing bracket, a punctuation mark or an operator. */
  predicate Place(v: string, j: nat) {
    && 0 < j <= |v|
    && (|| j == |v|
        || (v[j] in " \t\n\r" && v[j - 1] !in " \t\n\r")
        || v[j] in "[({<|"
        || v[j - 1] in "])}>.,:;*+-=&/\\")
  }

  /** Some place within the room, which ends at `stop`, follows the visible character at `i`. */
  ghost predicate WordBefore(v: string, i: nat, stop: nat) {
    i < |v| && v[i] !in " \t\n\r" && exists j :: i < j <= stop && Place(v, j)
  }

  lemma BoundaryIsPlace(v: string, j: nat)
    requires 0 < j <= |v|
    ensures IsBoundary(v, j) <==> Place(v, j)
  {
  }

  /** No newline stands from `from` up to `to`. */
  ghost predicate OneLine(v: string, from: nat, to: nat) {
    to <= |v| && forall i :: from <= i < to ==> v[i] != '\n'
  }

  /** What the line that starts at `start` is: `from` is where its text starts, behind a newline there, and `stop`
      where its room ends. It ends early at the first newline or at the end of the text. If there is no newline
      within the room, it ends with the last visible character that a place within the room follows; and if there
      is none, it ends one short of the room, with a hyphen. */
  lemma LineMeans(v: string, c: Layout, start: nat, from: nat, stop: nat)
    requires c.Valid() && start < |v|
    requires from == if v[start] == '\n' then start + 1 else start
    requires stop == from + c.width - (if start == 0 && c.initialIndent.Some? then c.initialIndent.value else c.indent)
    ensures var line := LineAt(v, c, start);
      if OneLine(v, from, stop) then
        && (line.hyphen <==> forall i :: from <= i < stop ==> !WordBefore(v, i, stop))
        && (line.hyphen ==> line.end == stop - 1)
        && (!line.hyphen ==> from < line.end <= stop && WordBefore(v, line.end - 1, stop))
        && (forall i :: from <= i < stop && WordBefore(v, i, stop) ==> i < line.end)
      else
        && !line.hyphen && from <= line.end < stop && OneLine(v, from, line.end)
        && (line.end == |v| || v[line.end] == '\n')
  {
    hide WordBefore, Fill, BackToBoundary, BackOverSpace;
    assert from == TextStart(v, start) && stop == from + c.Room(start);
    RoomFilled(v, from, c.Room(start));
    if OneLine(v, from, stop) {
      FullLineMeans(v, from, stop);
    }
  }

  lemma RoomFilled(v: string, from: nat, room: nat)
    requires from <= |v| && room > 0
    ensures var filled := Fill(v, from, room);
      && (OneLine(v, from, from + room) <==> filled == from + room)
      && OneLine(v, from, filled)
  {
  }

  /** How a line is broken when its room is filled. */
  lemma FullLineMeans(v: string, from: nat, stop: nat)
    requires from < stop <= |v|
    ensures var end := BackOverSpace(v, from, BackToBoundary(v, from, stop));
      && (end == from <==> forall i :: from <= i < stop ==> !WordBefore(v, i, stop))
      && (end > from ==> WordBefore(v, end - 1, stop))
      && (forall i :: from <= i < stop && WordBefore(v, i, stop) ==> i < end)
  {
    var b := BackToBoundary(v, from, stop);
    var end := BackOverSpace(v, from, b);
    hide IsBoundary, Place, BackToBoundary, BackOverSpace;
    forall i | from <= i < stop && WordBefore(v, i, stop) ensures i < end {
      var j :| i < j <= stop && Place(v, j);
      BoundaryIsPlace(v, j);
      assert j <= b;
    }
    if end > from {
      BoundaryIsPlace(v, b);
      assert WordBefore(v, end - 1, stop) && from <= end - 1 < stop;
    }
  }

  /** The next line starts behind one newline, or else at the next visible character. */
  lemma NextStartMeans(v: string, end: nat)
    requires end <= |v|
    ensures var start := NextStart(v, end);
      if end < |v| && v[end] == '\n' then start == end + 1
      else
        && end <= start <= |v| && (start < |v| ==> v[start] !in " \t\n\r")
        && forall k :: end <= k < start ==> v[k] in " \t\n\r"
  {
  }

  /** "hello world" in a column of width 8 is broken between the words. */
  lemma HelloWorld(v: string)
    requires v == "hello world"
    ensures LineAt(v, Layout(8, 0, None), 0) == Line(0, 5, false)
    ensures LineAt(v, Layout(8, 0, None), 6) == Line(6, 11, false)
    ensures NextStart(v, 5) == 6
  {
    hide LineAt, NextStart, WordBefore, OneLine;
    var c := Layout(8, 0, None);
    HelloPlaces(v);
    LineMeans(v, c, 0, 0, 8);
    LineMeans(v, c, 6, 6, 14);
    NextStartMeans(v, 5);
    assert v[5] in " \t\n\r" && v[6] !in " \t\n\r";
  }

  lemma InsideWord(v: string, j: nat)
    requires 0 < j < |v| && 'a' <= v[j] <= 'z' && (v[j - 1] == ' ' || 'a' <= v[j - 1] <= 'z')
    ensures !Place(v, j)
  {
  }

  lemma HelloPlaces(v: string)
    requires v == "hello world"
    ensures |v| == 11 && OneLine(v, 0, 8) && !OneLine(v, 6, 14) && forall i :: 0 <= i < 11 ==> v[i] != '\n'
    ensures v[5] == ' ' && v[6] == 'w'
    ensures WordBefore(v, 4, 8) && forall i :: 5 <= i < 8 ==> !WordBefore(v, i, 8)
  {
    assert v[5..9] == " wor" && v[..5] == "hello" && v[9..] == "ld";
    assert v[4] == 'o' && v[5] == ' ' && v[6] == 'w' && v[7] == 'o' && v[8] == 'r';
    assert Place(v, 5);
    InsideWord(v, 6);
    InsideWord(v, 7);
    InsideWord(v, 8);
    hide Place;
    forall i | 0 <= i < 11 ensures v[i] != '\n' {
      assert v[i] in "helo wrd";
    }
  }

  /** The text of the lines, one after the other. */
  function Joined(v: string, lines: seq<Line>): string
    requires forall k :: 0 <= k < |lines| ==> lines[k].start <= lines[k].end <= |v|
  {
    if lines == [] then "" else v[lines[0].start..lines[0].end] + Joined(v, lines[1..])
  }

  function Visible(s: string): string {
    if s == "" then "" else (if IsWhitespace(s[0]) then "" else [s[0]]) + Visible(s[1..])
  }

  lemma {:induction false} VisibleJoin(s: string, t: string)
    ensures Visible(s + t) == Visible(s) + Visible(t)
    decreases |s|
  {
    if s == "" {
      assert s + t == t;
    } else {
      assert (s + t)[1..] == s[1..] + t;
      VisibleJoin(s[1..], t);
    }
  }

  lemma {:induction false} VisibleSpace(s: string)
    requires forall i :: 0 <= i < |s| ==> IsWhitespace(s[i])
    ensures Visible(s) == ""
  {
    if s != "" {
      VisibleSpace(s[1..]);
    }
  }

  /** The lines from `start` on are good, lie in order, and leave out nothing but whitespace. */
  ghost predicate Flow(v: string, c: Layout, start: nat, lines: seq<Line>)
    requires c.Valid()
  {
    && (forall k :: 0 <= k < |lines| ==> lines[k].start <= lines[k].end <= |v| && GoodLine(v, c, lines[k]))
    && (forall k :: 0 <= k < |lines| && c.Room(lines[k].start) >= 2 ==> lines[k].start < lines[k].end)
    && (forall k :: 0 < k < |lines| ==> lines[k - 1].end <= lines[k].start)
    && (lines != [] ==> lines[0].start == start)
    && start <= |v| && Visible(Joined(v, lines)) == Visible(v[start..])
  }

  lemma VisibleStep(v: string, start: nat, end: nat, next: nat, later: string)
    requires start <= end <= next <= |v|
    requires forall i :: end <= i < next ==> IsWhitespace(v[i])
    requires Visible(later) == Visible(v[next..])
    ensures Visible(v[start..end] + later) == Visible(v[start..])
  {
    var text, gap, rest := v[start..end], v[end..next], v[next..];
    assert v[start..] == text + (gap + rest);
    VisibleJoin(text, gap + rest);
    VisibleJoin(gap, rest);
    VisibleSpace(gap);
    VisibleJoin(text, later);
  }

  lemma FlowStep(v: string, c: Layout, line: Line, next: nat, later: seq<Line>)
    requires c.Valid() && line.start <= line.end <= next <= |v| && GoodLine(v, c, line)
    requires c.Room(line.start) >= 2 ==> line.start < line.end
    requires forall i :: line.end <= i < next ==> IsWhitespace(v[i])
    requires Flow(v, c, next, later)
    ensures Flow(v, c, line.start, [line] + later)
  {
    hide GoodLine, Visible;
    var lines := [line] + later;
    assert lines[1..] == later;
    VisibleStep(v, line.start, line.end, next, Joined(v, later));
    forall k | 0 <= k < |lines|
      ensures lines[k].start <= lines[k].end <= |v| && GoodLine(v, c, lines[k])
      ensures (c.Room(lines[k].start) >= 2 ==> lines[k].start < lines[k].end)
          && (k > 0 ==> lines[k - 1].end <= lines[k].start)
    {
      if k > 0 {
        assert lines[k] == later[k - 1];
        assert k > 1 ==> lines[k - 1] == later[k - 2];
      }
    }
  }

  lemma {:induction false} LinesFlow(v: string, c: Layout, start: nat)
    requires c.Valid() && Ends(v, c) && start <= |v| && Reached(v, c, start)
    ensures Flow(v, c, start, LinesFrom(v, c, start))
    decreases |v| - start
  {
    hide GoodLine, LineAt, Flow, NextStart, Ends, Reached;
    if start < |v| {
      var line := LineAt(v, c, start);
      StartGrows(v, c, line);
      LineProgress(v, c, start);
      LineIsGood(v, c, start);
      LinesFlow(v, c, NextStart(v, line.end));
      FlowStep(v, c, line, NextStart(v, line.end), LinesFrom(v, c, NextStart(v, line.end)));
    } else {
      FlowNone(v, c);
    }
  }

  lemma FlowNone(v: string, c: Layout)
    requires c.Valid()
    ensures Flow(v, c, |v|, [])
  {
  }

  lemma NthZero(v: string, c: Layout)
    requires c.Valid()
    ensures Nth(v, c, 0).start == 0 || Nth(v, c, 0).start == |v|
    ensures v == "" || Dropped(v, c) ==> Nth(v, c, 0).start == |v|
    ensures v != "" && !Dropped(v, c) ==> Nth(v, c, 0) == LineAt(v, c, 0)
  {
  }

  lemma FrontReached(v: string, c: Layout)
    requires c.Valid()
    ensures !Dropped(v, c) ==> Reached(v, c, 0)
  {
  }

  /** When iterating a column ends, it yields good lines, in order, with some text in each that has room for
      two characters; and together they hold all the visible text, or none if the first line is empty. */
  lemma ColumnFlow(v: string, c: Layout)
    requires c.Valid() && Ends(v, c)
    ensures var lines := AllLines(v, c);
      && (forall k :: 0 <= k < |lines| ==> Nth(v, c, k) == lines[k] && lines[k].start < |v|)
      && Nth(v, c, |lines|).start == |v|
      && (!Dropped(v, c) ==> Flow(v, c, 0, lines))
      && (Dropped(v, c) ==> lines == [])
  {
    NthZero(v, c);
    if !Dropped(v, c) {
      FrontReached(v, c);
      hide LineAt, Flow, Nth, LinesFrom, Ends, Reached;
      UndroppedFlow(v, c);
    }
  }

  lemma UndroppedFlow(v: string, c: Layout)
    requires c.Valid() && Ends(v, c) && Reached(v, c, 0)
    requires if v == "" then Nth(v, c, 0).start == |v| else Nth(v, c, 0) == LineAt(v, c, 0)
    ensures var lines := LinesFrom(v, c, 0);
      && (forall k :: 0 <= k < |lines| ==> Nth(v, c, k) == lines[k] && lines[k].start < |v|)
      && Nth(v, c, |lines|).start == |v|
      && Flow(v, c, 0, lines)
  {
    hide LineAt, Flow, Nth, LinesFrom, Ends, Reached;
    var lines := LinesFrom(v, c, 0);
    LinesFlow(v, c, 0);
    LinesAreStates(v, c, 0, 0, 0);
    forall k | 0 <= k < |lines| ensures Nth(v, c, k) == lines[k] && lines[k].start < |v| {
      LinesAreStates(v, c, 0, 0, k);
    }
  }

  /** A character that is not followed by a boundary is never passed when lines hold one character. */
  lemma {:induction false} NeverPassed(v: string, c: Layout, i: nat, n: nat)
    requires c.Valid() && c.width == c.indent + 1 && v != "" && !Dropped(v, c)
    requires LineAt(v, c, 0).end <= i < |v| && !IsWhitespace(v[i]) && !IsBoundary(v, i + 1)
    ensures Nth(v, c, n).start < |v| && 0 < Nth(v, c, n).end <= i
  {
    hide LineAt, NextStart, IsBoundary, Nth;
    if n > 0 {
      NeverPassed(v, c, i, n - 1);
      var line := Nth(v, c, n - 1);
      NthStep(v, c, n - 1, line);
      StaysBefore(v, line.end, i);
      OneCharacter(v, c, i, NextStart(v, line.end));
    } else {
      NthZero(v, c);
    }
  }

  lemma StaysBefore(v: string, end: nat, i: nat)
    requires end <= i < |v| && !IsWhitespace(v[i])
    ensures end <= NextStart(v, end) <= i
  {
  }

  lemma OneCharacter(v: string, c: Layout, i: nat, start: nat)
    requires c.Valid() && start <= i < |v| && c.Room(start) == 1
    requires !IsWhitespace(v[i]) && !IsBoundary(v, i + 1)
    ensures LineAt(v, c, start).end <= i
  {
    var from := TextStart(v, start);
    if from < |v| && v[from] != '\n' {
      assert Fill(v, from, 1) == Fill(v, from + 1, 0) == from + 1;
    }
  }

  /** Otherwise every increment moves the start of the line on. */
  lemma {:induction false} EndReached(v: string, c: Layout, n: nat)
    requires c.Valid() && Ends(v, c) && Reached(v, c, Nth(v, c, n).start)
    requires Nth(v, c, n).start < |v| ==> Nth(v, c, n) == LineAt(v, c, Nth(v, c, n).start)
    ensures exists m :: Nth(v, c, m).start == |v|
    decreases |v| - Nth(v, c, n).start
  {
    hide LineAt, Nth, NextStart, Ends, Reached;
    var line := Nth(v, c, n);
    if line.start < |v| {
      StartGrows(v, c, line);
      NthStep(v, c, n, line);
      EndReached(v, c, n + 1);
    } else {
      assert Nth(v, c, n).start == |v|;
    }
  }

  /** Iterating a column ends if and only if its later lines have room for two characters, or every visible
      character behind the first line can be broken after, or the first line is empty. */
  lemma IterationEnds(v: string, c: Layout)
    requires c.Valid()
    ensures (exists n :: Nth(v, c, n).start == |v|) <==> Ends(v, c)
  {
    if v == "" || Dropped(v, c) {
      assert Nth(v, c, 0).start == |v|;
    } else if Ends(v, c) {
      assert Nth(v, c, 0) == LineAt(v, c, 0);
      EndReached(v, c, 0);
    } else {
      var i :| LineAt(v, c, 0).end <= i < |v| && !IsWhitespace(v[i]) && !IsBoundary(v, i + 1);
      forall n ensures Nth(v, c, n).start < |v| {
        NeverPassed(v, c, i, n);
      }
    }
  }

  /** A column that is never done: its first line has room for five characters, its later lines for one. */
  lemma EndlessExample(v: string, c: Layout, n: nat)
    requires v == "abcdef ghi" && c == Layout(5, 4, Some(0))
    ensures c.Valid() && Nth(v, c, n).start < |v|
  {
    EndlessFirstLine(v, c);
    EndlessFrom(v, c, n);
  }

  lemma EndlessFrom(v: string, c: Layout, n: nat)
    requires c.Valid() && c.width == c.indent + 1 && |v| == 10 && LineAt(v, c, 0) == Line(0, 4, true)
    requires !IsWhitespace(v[4]) && !IsBoundary(v, 5)
    ensures Nth(v, c, n).start < |v|
  {
    hide Nth;
    NeverPassed(v, c, 4, n);
  }

  lemma EndlessFirstLine(v: string, c: Layout)
    requires v == "abcdef ghi" && c == Layout(5, 4, Some(0))
    ensures c.Valid() && LineAt(v, c, 0) == Line(0, 4, true) && !IsWhitespace(v[4]) && !IsBoundary(v, 5)
  {
    hide Fill, BackToBoundary, BackOverSpace, IsBoundary;
    var stop := Fill(v, 0, 5);
    NoEarlyBoundary(v);
    assert stop == 5;
    assert BackToBoundary(v, 0, 5) == 0;
  }

  lemma NoEarlyBoundary(v: string)
    requires v == "abcdef ghi"
    ensures forall i :: 0 <= i < 6 ==> v[i] != '\n' && !IsWhitespace(v[i])
    ensures forall i :: 1 <= i <= 5 ==> !IsBoundary(v, i)
  {
    assert v[..6] == "abcdef";
    assert forall i :: 0 <= i < 6 ==>
                       v[i] in "abcdef" && !IsWhitespace(v[i]) && !IsBreakableBefore(v[i]) && !IsBreakableAfter(v[i]);
  }

  /** A column that yields nothing: its first line has room for one character and cannot be broken after it. */
  lemma DroppedExample()
    ensures var c := Layout(1, 0, None);
      Ends("ab", c) && AllLines("ab", c) == []
  {
    hide LineAt, LinesFrom, BreakableFrom, IsBoundary;
    DroppedIff("ab", Layout(1, 0, None));
    NoBoundary();
  }

  lemma NoBoundary()
    ensures !IsBoundary("ab", 1)
  {
    assert "ab"[0] == 'a' && "ab"[1] == 'b';
  }
}
