/** The tags of a test case, held as views into one buffer that must never move. */
module TestCaseTags {
  import opened Wrappers

  datatype TagError = BracketInsideTag | UnmatchedBracket | EmptyTag | ReservedTag | UnclosedTag

  datatype Property = IsHidden | Throws | ShouldFail | MayFail | NonPortable | Benchmark

  function ParseSpecialTag(tag: string): set<Property> {
    if tag != "" && tag[0] == '.' then {IsHidden}
    else if tag == "!throws" then {Throws}
    else if tag == "!shouldfail" then {ShouldFail}
    else if tag == "!mayfail" then {MayFail}
    else if tag == "!nonportable" then {NonPortable}
    else if tag == "!benchmark" then {Benchmark, IsHidden}
    else {}
  }

  predicate IsAlnum(c: char) {
    '0' <= c <= '9' || 'a' <= c <= 'z' || 'A' <= c <= 'Z'
  }

  predicate IsReservedTag(tag: string) {
    ParseSpecialTag(tag) == {} && tag != "" && !IsAlnum(tag[0])
  }

  /** A merged hide tag such as ".foo" is kept as "foo". */
  function Normalized(tag: string): string {
    if |tag| > 1 && tag[0] == '.' then tag[1..] else tag
  }

  /** Why the text of a tag is refused, if it is. */
  function Refused(tag: string): Option<TagError> {
    if tag == "" then Some(EmptyTag) else if IsReservedTag(tag) then Some(ReservedTag) else None
  }

  /** The raw tags from `i` on; `open` is where the text of the tag around `i` started. */
  datatype Parsed = Tags(tags: seq<string>) | Failed(error: TagError)

  function ParseFrom(s: string, i: nat, open: Option<nat>): Parsed
    requires i <= |s| && (open.Some? ==> open.value <= i)
    decreases |s| - i
  {
    if i == |s| then (if open.Some? then Failed(UnclosedTag) else Tags([]))
    else if s[i] == '[' then (if open.Some? then Failed(BracketInsideTag) else ParseFrom(s, i + 1, Some(i + 1)))
    else if s[i] == ']' then
      if open.None? then Failed(UnmatchedBracket)
      else
        var tag := s[open.value..i];
        if Refused(tag).Some? then Failed(Refused(tag).value)
        else
          match ParseFrom(s, i + 1, None)
          case Failed(e) => Failed(e)
          case Tags(rest) => Tags([tag] + rest)
    else ParseFrom(s, i + 1, open)
  }

  function NormalizedAll(tags: seq<string>): (r: seq<string>)
    ensures |r| == |tags| && forall k :: 0 <= k < |tags| ==> r[k] == Normalized(tags[k])
  {
    seq(|tags|, k requires 0 <= k < |tags| => Normalized(tags[k]))
  }

  function PropertiesOf(tags: seq<string>): set<Property> {
    if tags == [] then {} else PropertiesOf(tags[..|tags| - 1]) + ParseSpecialTag(tags[|tags| - 1])
  }

  /** The tags as the buffer holds them. */
  function Bracketed(tags: seq<string>): string {
    if tags == [] then "" else Bracketed(tags[..|tags| - 1]) + "[" + tags[|tags| - 1] + "]"
  }

  lemma OneMore(tags: seq<string>, tag: string)
    ensures Bracketed(tags + [tag]) == Bracketed(tags) + "[" + tag + "]"
    ensures |Bracketed(tags + [tag])| == |Bracketed(tags)| + |tag| + 2
    ensures PropertiesOf(tags + [tag]) == PropertiesOf(tags) + ParseSpecialTag(tag)
    ensures NormalizedAll(tags + [tag]) == NormalizedAll(tags) + [Normalized(tag)]
  {
    assert (tags + [tag])[..|tags|] == tags;
  }

  /** The part of a file name between the last slash and the last dot; empty when there is no dot. */
  function LastDot(s: string, i: nat): (d: nat)
    requires i <= |s|
    ensures d <= i && (d > 0 ==> s[d - 1] == '.') && forall k :: d <= k < i ==> s[k] != '.'
  {
    if i > 0 && s[i - 1] != '.' then LastDot(s, i - 1) else i
  }

  function NameStart(s: string, i: nat): (n: nat)
    requires i <= |s|
    ensures n <= i && (n > 0 ==> s[n - 1] == '/' || s[n - 1] == '\\') && forall k :: n <= k < i ==>
        s[k] != '/' && s[k] != '\\'
  {
    if i > 0 && s[i - 1] != '/' && s[i - 1] != '\\' then NameStart(s, i - 1) else i
  }

  function FilenamePart(s: string): string {
    var d := LastDot(s, |s|);
    if d == 0 then "" else s[NameStart(s, d - 1)..d - 1]
  }

  method ExtractFilenamePart(filename: string) returns (part: string)
    ensures part == FilenamePart(filename)
  {
    var lastDot := |filename|;
    while lastDot > 0 && filename[lastDot - 1] != '.'
      invariant 0 <= lastDot <= |filename| && LastDot(filename, lastDot) == LastDot(filename, |filename|)
    {
      lastDot := lastDot - 1;
    }
    if lastDot == 0 { return ""; }
    lastDot := lastDot - 1;
    var nameStart := lastDot;
    while nameStart > 0 && filename[nameStart - 1] != '/' && filename[nameStart - 1] != '\\'
      invariant 0 <= nameStart <= lastDot && NameStart(filename, nameStart) == NameStart(filename, lastDot)
    {
      nameStart := nameStart - 1;
    }
    part := filename[nameStart..lastDot];
  }

  /** A view of `length` characters of the buffer as it was allocated the `allocation`th time. */
  datatype StringRef = StringRef(allocation: nat, start: nat, length: nat)

  predicate Reads(buffer: string, allocation: nat, view: StringRef, text: string) {
    && view.allocation == allocation && view.start + view.length <= |buffer|
    && buffer[view.start..view.start + view.length] == text
  }

  ghost predicate AllRead(buffer: string, allocation: nat, views: seq<StringRef>, texts: seq<string>) {
    && |views| == |texts|
    && forall k :: 0 <= k < |views| ==> Reads(buffer, allocation, views[k], texts[k])
  }

  /** Text added behind does not disturb the views, as long as the buffer stays where it is. */
  lemma OneMoreReads(buffer: string, allocation: nat, views: seq<StringRef>, texts: seq<string>, tag: string)
    requires AllRead(buffer, allocation, views, texts)
    ensures AllRead(buffer + "[" + tag + "]", allocation, views + [StringRef(allocation, |buffer| + 1, |tag|)],
        texts + [tag])
  {
    var more := buffer + "[" + tag + "]";
    forall k | 0 <= k < |views| ensures Reads(more, allocation, views[k], texts[k]) {
      var v := views[k];
      assert Reads(buffer, allocation, v, texts[k]);
      assert more[v.start..v.start + v.length] == buffer[v.start..v.start + v.length];
    }
    assert more[|buffer| + 1..|buffer| + 1 + |tag|] == tag;
  }

  /** A character as it is compared: letters without their case, and bytes above 0x7F as negative numbers. */
  function Key(c: char): int {
    if 'A' <= c <= 'Z' then c as int + 32 else if c as int >= 128 then c as int - 256 else c as int
  }

  predicate Less(s: string, t: string) {
    if t == "" then false
    else if s == "" then true
    else Key(s[0]) < Key(t[0]) || (Key(s[0]) == Key(t[0]) && Less(s[1..], t[1..]))
  }

  predicate Same(s: string, t: string) {
    |s| == |t| && forall k :: 0 <= k < |s| ==> Key(s[k]) == Key(t[k])
  }

  /** Of two texts one is less, or they are the same but for case. */
  lemma {:induction false} Compared(s: string, t: string)
    ensures !(Less(s, t) && Less(t, s))
    ensures !Less(s, t) && !Less(t, s) <==> Same(s, t)
  {
    if s != "" && t != "" {
      Compared(s[1..], t[1..]);
      assert Same(s, t) <==> Key(s[0]) == Key(t[0]) && Same(s[1..], t[1..]) by {
        if Key(s[0]) == Key(t[0]) && Same(s[1..], t[1..]) {
          forall k | 0 <= k < |s| ensures Key(s[k]) == Key(t[k]) {
            assert k > 0 ==> s[k] == s[1..][k - 1] && t[k] == t[1..][k - 1];
          }
        }
      }
    }
  }

  lemma {:induction false} LessNotMore(s: string, t: string, u: string)
    ensures Less(s, t) && !Less(u, t) ==> Less(s, u)
    ensures !Less(t, s) && !Less(u, t) ==> !Less(u, s)
  {
    if s != "" && t != "" && u != "" {
      LessNotMore(s[1..], t[1..], u[1..]);
    }
  }

  function TextAt(buffer: string, view: StringRef): string {
    if view.start + view.length <= |buffer| then buffer[view.start..view.start + view.length] else ""
  }

  ghost predicate Sorted(buffer: string, views: seq<StringRef>) {
    forall i, j :: 0 <= i < j < |views| ==> !Less(TextAt(buffer, views[j]), TextAt(buffer, views[i]))
  }

  function Insert(buffer: string, view: StringRef, views: seq<StringRef>): seq<StringRef> {
    if views == [] || !Less(TextAt(buffer, views[0]), TextAt(buffer, view)) then [view] + views
    else [views[0]] + Insert(buffer, view, views[1..])
  }

  function Sort(buffer: string, views: seq<StringRef>): seq<StringRef> {
    if views == [] then [] else Insert(buffer, views[0], Sort(buffer, views[1..]))
  }

  lemma SortedStep(buffer: string, view: StringRef, views: seq<StringRef>)
    requires Sorted(buffer, views)
    requires forall v :: v in views ==> !Less(TextAt(buffer, v), TextAt(buffer, view))
    ensures Sorted(buffer, [view] + views)
  {
    hide Less, TextAt;
    var all := [view] + views;
    forall i, j | 0 <= i < j < |all| ensures !Less(TextAt(buffer, all[j]), TextAt(buffer, all[i])) {
      assert all[j] == views[j - 1] && all[j] in views;
    }
  }

  lemma {:induction false} InsertSorted(buffer: string, view: StringRef, views: seq<StringRef>)
    requires Sorted(buffer, views)
    ensures var r := Insert(buffer, view, views);
      Sorted(buffer, r) && forall v :: v in r <==> v == view || v in views
  {
    hide Less, TextAt;
    if views == [] {
      SortedStep(buffer, view, views);
    } else if !Less(TextAt(buffer, views[0]), TextAt(buffer, view)) {
      forall v | v in views ensures !Less(TextAt(buffer, v), TextAt(buffer, view)) {
        var j :| 0 <= j < |views| && views[j] == v;
        LessNotMore(TextAt(buffer, view), TextAt(buffer, views[0]), TextAt(buffer, v));
      }
      SortedStep(buffer, view, views);
    } else {
      InsertSorted(buffer, view, views[1..]);
      Compared(TextAt(buffer, views[0]), TextAt(buffer, view));
      SortedStep(buffer, views[0], Insert(buffer, view, views[1..]));
    }
  }

  lemma {:induction false} SortSorts(buffer: string, views: seq<StringRef>)
    ensures var r := Sort(buffer, views);
      Sorted(buffer, r) && forall v :: v in r <==> v in views
  {
    hide Less, TextAt, Insert;
    if views != [] {
      SortSorts(buffer, views[1..]);
      InsertSorted(buffer, views[0], Sort(buffer, views[1..]));
    }
  }

  /** The first of each run of views with the same text. */
  function Unique(buffer: string, views: seq<StringRef>): seq<StringRef>
    decreases |views|
  {
    if |views| < 2 then views
    else if Same(TextAt(buffer, views[0]), TextAt(buffer, views[1])) then Unique(buffer, [views[0]] + views[2..])
    else [views[0]] + Unique(buffer, views[1..])
  }

  ghost predicate Increasing(texts: seq<string>) {
    forall i, j :: 0 <= i < j < |texts| ==> Less(texts[i], texts[j])
  }

  function TextsAt(buffer: string, views: seq<StringRef>): (texts: seq<string>)
    ensures |texts| == |views| && forall k :: 0 <= k < |views| ==> texts[k] == TextAt(buffer, views[k])
  {
    seq(|views|, k requires 0 <= k < |views| => TextAt(buffer, views[k]))
  }

  ghost predicate HasSame(buffer: string, some: seq<StringRef>, view: StringRef) {
    exists u :: u in some && Same(TextAt(buffer, u), TextAt(buffer, view))
  }

  /** Each of the views reads the same as one of `some`, and these are among the views. */
  ghost predicate Represents(buffer: string, some: seq<StringRef>, views: seq<StringRef>) {
    && (forall k :: 0 <= k < |some| ==> some[k] in views)
    && (forall k :: 0 <= k < |views| ==> HasSame(buffer, some, views[k]))
  }

  lemma HasSameAs(buffer: string, some: seq<StringRef>, u: StringRef, view: StringRef)
    requires u in some && (u == view || Same(TextAt(buffer, u), TextAt(buffer, view)))
    ensures HasSame(buffer, some, view)
  {
  }

  lemma HasSameMore(buffer: string, some: seq<StringRef>, u: StringRef, view: StringRef)
    requires HasSame(buffer, some, view)
    ensures HasSame(buffer, [u] + some, view)
  {
    hide TextAt, Same;
    var w :| w in some && Same(TextAt(buffer, w), TextAt(buffer, view));
    assert w in [u] + some;
  }

  lemma RepresentsItself(buffer: string, views: seq<StringRef>)
    ensures Represents(buffer, views, views)
  {
    hide HasSame;
    forall k | 0 <= k < |views| ensures HasSame(buffer, views, views[k]) {
      HasSameAs(buffer, views, views[k], views[k]);
    }
  }

  lemma RepresentsDropped(buffer: string, some: seq<StringRef>, views: seq<StringRef>)
    requires |views| >= 2 && Same(TextAt(buffer, views[0]), TextAt(buffer, views[1]))
    requires some != [] && some[0] == views[0] && Represents(buffer, some, [views[0]] + views[2..])
    ensures Represents(buffer, some, views)
  {
    hide HasSame, TextAt, Same;
    var fewer := [views[0]] + views[2..];
    forall k | 0 <= k < |some| ensures some[k] in views {
      var j :| 0 <= j < |fewer| && fewer[j] == some[k];
      assert j > 0 ==> fewer[j] == views[j + 1];
    }
    forall k | 0 <= k < |views| ensures HasSame(buffer, some, views[k]) {
      if k < 2 {
        HasSameAs(buffer, some, some[0], views[k]);
      } else {
        assert views[k] == fewer[k - 1];
      }
    }
  }

  lemma RepresentsKept(buffer: string, some: seq<StringRef>, view: StringRef, views: seq<StringRef>)
    requires Represents(buffer, some, views)
    ensures Represents(buffer, [view] + some, [view] + views)
  {
    hide HasSame;
    var more, all := [view] + some, [view] + views;
    forall k | 0 <= k < |more| ensures more[k] in all {
      if k > 0 {
        assert more[k] == some[k - 1];
        var j :| 0 <= j < |views| && views[j] == some[k - 1];
        assert all[j + 1] == more[k];
      } else {
        assert all[0] == view;
      }
    }
    forall k | 0 <= k < |all| ensures HasSame(buffer, more, all[k]) {
      if k > 0 {
        assert all[k] == views[k - 1];
        HasSameMore(buffer, some, view, all[k]);
      } else {
        HasSameAs(buffer, more, view, view);
      }
    }
  }

  lemma {:induction false} UniqueIncreases(buffer: string, views: seq<StringRef>)
    requires Sorted(buffer, views)
    ensures var r := Unique(buffer, views);
      && (views != [] ==> r != [] && r[0] == views[0])
      && Increasing(TextsAt(buffer, r)) && Represents(buffer, r, views)
    decreases |views|
  {
    hide Less, TextAt, Same, Sorted, Represents, Increasing;
    if |views| < 2 {
      RepresentsItself(buffer, views);
      OneIncreases(buffer, views);
    } else if Same(TextAt(buffer, views[0]), TextAt(buffer, views[1])) {
      SortedWithout(buffer, views);
      UniqueIncreases(buffer, [views[0]] + views[2..]);
      RepresentsDropped(buffer, Unique(buffer, views), views);
    } else {
      SortedBehind(buffer, views);
      UniqueIncreases(buffer, views[1..]);
      RepresentsKept(buffer, Unique(buffer, views[1..]), views[0], views[1..]);
      Compared(TextAt(buffer, views[0]), TextAt(buffer, views[1]));
      IncreasingStep(buffer, views[0], Unique(buffer, views[1..]));
      assert views == [views[0]] + views[1..];
    }
  }

  lemma OneIncreases(buffer: string, views: seq<StringRef>)
    requires |views| < 2
    ensures Increasing(TextsAt(buffer, views))
  {
  }

  lemma SortedBehind(buffer: string, views: seq<StringRef>)
    requires Sorted(buffer, views) && |views| >= 2
    ensures Sorted(buffer, views[1..]) && !Less(TextAt(buffer, views[1]), TextAt(buffer, views[0]))
  {
    hide Less, TextAt;
  }

  lemma SortedWithout(buffer: string, views: seq<StringRef>)
    requires Sorted(buffer, views) && |views| >= 2
    ensures Sorted(buffer, [views[0]] + views[2..])
  {
    hide Less, TextAt;
    var fewer := [views[0]] + views[2..];
    forall i, j | 0 <= i < j < |fewer| ensures !Less(TextAt(buffer, fewer[j]), TextAt(buffer, fewer[i])) {
      assert fewer[j] == views[j + 1];
      assert i > 0 ==> fewer[i] == views[i + 1];
    }
  }

  lemma IncreasingStep(buffer: string, view: StringRef, views: seq<StringRef>)
    requires views != [] && Less(TextAt(buffer, view), TextAt(buffer, views[0])) && Increasing(TextsAt(buffer, views))
    ensures Increasing(TextsAt(buffer, [view] + views))
  {
    hide Less, TextAt;
    var texts, all := TextsAt(buffer, views), TextsAt(buffer, [view] + views);
    assert forall k :: 0 < k < |all| ==> all[k] == texts[k - 1];
    forall i, j | 0 <= i < j < |all| ensures Less(all[i], all[j]) {
      if i == 0 && j > 1 {
        Compared(texts[0], texts[j - 1]);
        LessNotMore(all[0], texts[0], all[j]);
      }
    }
  }

  /** Tags sorted without regard to case, with one kept of those that are the same. */
  ghost predicate SortedTags(texts: seq<string>, all: seq<string>) {
    && Increasing(texts)
    && (forall t :: t in texts ==> t in all)
    && (forall t :: t in all ==> exists u :: u in texts && Same(u, t))
  }

  lemma TagsSorted(buffer: string, allocation: nat, views: seq<StringRef>, texts: seq<string>)
    requires AllRead(buffer, allocation, views, texts)
    ensures var r := Unique(buffer, Sort(buffer, views));
      AllRead(buffer, allocation, r, TextsAt(buffer, r)) && SortedTags(TextsAt(buffer, r), texts)
  {
    hide Less, Sort, Unique, Same, Sorted, Increasing, AllRead;
    var sorted := Sort(buffer, views);
    var r := Unique(buffer, sorted);
    SortSorts(buffer, views);
    UniqueIncreases(buffer, sorted);
    RepresentsSorted(buffer, r, sorted, views);
    hide Represents;
    AmongRead(buffer, allocation, r, views, texts);
    TextsRepresent(buffer, allocation, r, views, texts);
  }

  lemma RepresentsSorted(buffer: string, some: seq<StringRef>, sorted: seq<StringRef>, views: seq<StringRef>)
    requires Represents(buffer, some, sorted) && forall v :: v in sorted <==> v in views
    ensures Represents(buffer, some, views)
  {
    hide HasSame;
    forall k | 0 <= k < |views| ensures HasSame(buffer, some, views[k]) {
      assert views[k] in sorted;
    }
  }

  lemma ReadsItsText(buffer: string, allocation: nat, views: seq<StringRef>, texts: seq<string>, view: StringRef)
    returns (j: nat)
    requires AllRead(buffer, allocation, views, texts) && view in views
    ensures j < |texts| && texts[j] == TextAt(buffer, view) && Reads(buffer, allocation, view, TextAt(buffer, view))
  {
    j :| 0 <= j < |views| && views[j] == view;
    assert Reads(buffer, allocation, views[j], texts[j]);
  }

  lemma AmongRead(buffer: string, allocation: nat, some: seq<StringRef>, views: seq<StringRef>, texts: seq<string>)
    requires AllRead(buffer, allocation, views, texts) && forall k :: 0 <= k < |some| ==> some[k] in views
    ensures AllRead(buffer, allocation, some, TextsAt(buffer, some))
    ensures forall k :: 0 <= k < |some| ==> TextsAt(buffer, some)[k] in texts
  {
    hide Reads, TextAt;
    forall k | 0 <= k < |some|
      ensures Reads(buffer, allocation, some[k], TextAt(buffer, some[k])) && TextAt(buffer, some[k]) in texts
    {
      var j := ReadsItsText(buffer, allocation, views, texts, some[k]);
    }
  }

  lemma TextsRepresent(buffer: string, allocation: nat, some: seq<StringRef>, views: seq<StringRef>, texts: seq<string>)
    requires AllRead(buffer, allocation, views, texts) && Represents(buffer, some, views)
    ensures forall t :: t in texts ==> exists u :: u in TextsAt(buffer, some) && Same(u, t)
  {
    hide Same, TextAt, HasSame, Reads;
    forall t | t in texts ensures exists u :: u in TextsAt(buffer, some) && Same(u, t) {
      var j :| 0 <= j < |texts| && texts[j] == t;
      TextOfView(buffer, allocation, views[j], t);
      SameText(buffer, some, views[j]);
    }
  }

  lemma TextOfView(buffer: string, allocation: nat, view: StringRef, text: string)
    requires Reads(buffer, allocation, view, text)
    ensures TextAt(buffer, view) == text
  {
  }

  lemma SameText(buffer: string, some: seq<StringRef>, view: StringRef)
    requires HasSame(buffer, some, view)
    ensures exists u :: u in TextsAt(buffer, some) && Same(u, TextAt(buffer, view))
  {
    hide Same, TextAt;
    var v :| v in some && Same(TextAt(buffer, v), TextAt(buffer, view));
    var k :| 0 <= k < |some| && some[k] == v;
    assert TextsAt(buffer, some)[k] == TextAt(buffer, v);
  }

  class TestCaseInfo {
    const file: string
    /** The buffer: its text, the room it has, and how often it has moved. */
    var backingTags: string
    var capacity: nat
    var allocation: nat
    var tags: seq<StringRef>
    var properties: set<Property>
    /** The tags in the buffer, and what each of the views must read. */
    ghost var added: seq<string>
    ghost var texts: seq<string>

    constructor (file: string)
      ensures this.file == file && backingTags == "" && capacity == 0 && tags == [] && added == texts == []
          && properties == {} && Valid()
    {
      this.file := file;
      backingTags := "";
      capacity := 0;
      allocation := 0;
      tags := [];
      properties := {};
      added := [];
      texts := [];
    }

    /** Every view reads its own tag's text from the buffer where it is now. */
    ghost predicate Valid()
      reads `backingTags, `capacity, `allocation, `tags, `added, `texts
    {
      && |backingTags| <= capacity
      && backingTags == Bracketed(added)
      && AllRead(backingTags, allocation, tags, texts)
    }

    method Reserve(size: nat)
      requires Valid() && tags == []
      modifies this
      ensures Valid() && capacity >= size && tags == [] && texts == old(texts) && added == old(added)
          && backingTags == old(backingTags) && properties == old(properties)
    {
      if size > capacity {
        capacity := size;
        allocation := allocation + 1;
      }
    }

    /** Appending moves the buffer exactly when there is no room. */
    method Append(s: string)
      modifies `backingTags, `capacity, `allocation
      ensures backingTags == old(backingTags) + s && capacity >= old(capacity)
      ensures allocation == old(allocation) <==> |old(backingTags)| + |s| <= old(capacity)
      ensures allocation == old(allocation) ==> capacity == old(capacity)
      ensures |backingTags| <= capacity
    {
      if |backingTags| + |s| > capacity {
        capacity := 2 * (|backingTags| + |s|);
        allocation := allocation + 1;
      }
      backingTags := backingTags + s;
    }

    /** Adds a tag for which there is room. */
    method InternalAppendTag(tag: string)
      requires Valid() && |backingTags| + |tag| + 2 <= capacity
      modifies this
      ensures Valid() && texts == old(texts) + [tag] && added == old(added) + [tag]
      ensures |tags| == |old(tags)| + 1 && old(tags) <= tags
      ensures allocation == old(allocation) && capacity == old(capacity) && properties == old(properties)
      ensures |backingTags| == |old(backingTags)| + |tag| + 2
    {
      hide AllRead, Bracketed;
      Append("[");
      var backingStart := |backingTags|;
      Append(tag);
      var backingEnd := |backingTags|;
      Append("]");
      OneMoreReads(old(backingTags), allocation, tags, texts, tag);
      OneMore(added, tag);
      tags := tags + [StringRef(allocation, backingStart, backingEnd - backingStart)];
      added := added + [tag];
      texts := texts + [tag];
    }

    /** Sorts the views by what they read, without regard to case, and drops those that read the same. */
    method SortTags()
      requires Valid()
      modifies `tags, `texts
      ensures Valid() && SortedTags(texts, old(texts))
    {
      hide AllRead, Bracketed, SortedTags, Sort, Unique;
      TagsSorted(backingTags, allocation, tags, texts);
      tags := Unique(backingTags, Sort(backingTags, tags));
      texts := TextsAt(backingTags, tags);
    }

    /** Adds the tag of the file the test case is in; for this there is room once. */
    method AddFilenameTag()
      requires Valid() && |backingTags| + |FilenamePart(file)| + 3 <= capacity
      modifies this
      ensures Valid() && texts == old(texts) + ["#" + FilenamePart(file)]
          && added == old(added) + ["#" + FilenamePart(file)]
      ensures old(tags) <= tags
      ensures allocation == old(allocation)
    {
      var part := ExtractFilenamePart(file);
      InternalAppendTag("#" + part);
    }
  }

  datatype Result = Ok(info: TestCaseInfo) | Error(error: TagError)

  /** The tags kept: the normalized ones, and one more "." for a hidden test case. */
  function KeptTags(tags: seq<string>): seq<string> {
    NormalizedAll(tags) + (if IsHidden in PropertiesOf(tags) then ["."] else [])
  }

  /** Builds the tags of a test case. For every accepted tag string the buffer has its final place from the
      start: it has room left for the tag of the file, and the views read the tags in order, each once. */
  method MakeTestCaseInfo(originalTags: string, file: string) returns (r: Result)
    ensures match ParseFrom(originalTags, 0, None)
            case Failed(e) => r == Error(e)
            case Tags(tags) =>
              && r.Ok? && fresh(r.info) && r.info.file == file && r.info.Valid()
              && r.info.added == KeptTags(tags) && r.info.properties == PropertiesOf(tags)
              && SortedTags(r.info.texts, KeptTags(tags))
              && |r.info.backingTags| + |FilenamePart(file)| + 3 <= r.info.capacity
  {
    hide SortedTags, TestCaseInfo.Valid, Continues, ParseFrom, PropertiesOf, NormalizedAll, FilenamePart, IsReservedTag,
        ParseSpecialTag;
    var info := new TestCaseInfo(file);
    StartsOver(originalTags);
    var part := ExtractFilenamePart(file);
    var requiredSize := |originalTags| + (|part| + 6);
    info.Reserve(requiredSize);
    ghost var raw: seq<string> := [];
    var tagStart := 0;
    var inTag := false;
    var idx := 0;
    while idx < |originalTags|
      invariant idx <= |originalTags| && (inTag ==> tagStart < idx)
      invariant info.Valid() && fresh(info) && info.file == file && info.capacity >= requiredSize
      invariant info.texts == info.added == NormalizedAll(raw) && info.properties == PropertiesOf(raw)
      invariant |info.backingTags| <= (if inTag then tagStart else idx)
      invariant Continues(originalTags, idx, if inTag then Some(tagStart + 1) else None, raw)
    {
      var c := originalTags[idx];
      FailsHere(originalTags, idx, if inTag then Some(tagStart + 1) else None, raw);
      if c == '[' {
        if inTag { return Error(BracketInsideTag); }
        inTag := true;
        tagStart := idx;
      }
      if c == ']' {
        if !inTag { return Error(UnmatchedBracket); }
        inTag := false;
        var tagStr := originalTags[tagStart + 1..idx];
        if tagStr == "" { return Error(EmptyTag); }
        if IsReservedTag(tagStr) { return Error(ReservedTag); }
        info.properties := info.properties + ParseSpecialTag(tagStr);
        OneMore(raw, tagStr);
        ContinuesTag(originalTags, idx, tagStart + 1, raw);
        raw := raw + [tagStr];
        if |tagStr| > 1 && tagStr[0] == '.' {
          tagStr := tagStr[1..];
        }
        info.InternalAppendTag(tagStr);
      }
      if c != ']' {
        ContinuesOn(originalTags, idx, if inTag && c != '[' then Some(tagStart + 1) else None, raw);
      }
      idx := idx + 1;
    }
    AtEnd(originalTags, if inTag then Some(tagStart + 1) else None, raw);
    if inTag { return Error(UnclosedTag); }
    if IsHidden in info.properties {
      info.InternalAppendTag(".");
    }
    info.SortTags();
    r := Ok(info);
  }

  /** The tags from `i` on complete those found so far. */
  ghost predicate Continues(s: string, i: nat, open: Option<nat>, found: seq<string>)
    requires i <= |s| && (open.Some? ==> open.value <= i)
  {
    ParseFrom(s, 0, None) == match ParseFrom(s, i,
        open) case Failed(e) => Failed(e) case Tags(rest) => Tags(found + rest)
  }

  lemma ContinuesTag(s: string, i: nat, start: nat, found: seq<string>)
    requires start <= i < |s| && s[i] == ']' && Continues(s, i, Some(start), found) && Refused(s[start..i]).None?
    ensures Continues(s, i + 1, None, found + [s[start..i]])
  {
    var rest := ParseFrom(s, i + 1, None);
    if rest.Tags? {
      assert found + ([s[start..i]] + rest.tags) == found + [s[start..i]] + rest.tags;
    }
  }

  lemma StartsOver(s: string)
    ensures Continues(s, 0, None, []) && NormalizedAll([]) == [] && PropertiesOf([]) == {}
  {
    match ParseFrom(s, 0, None)
    case Failed(_) =>
    case Tags(rest) => assert [] + rest == rest;
  }

  /** A character that ends no tag. */
  lemma ContinuesOn(s: string, i: nat, open: Option<nat>, found: seq<string>)
    requires i < |s| && s[i] != ']' && (open.Some? ==> open.value <= i)
    requires Continues(s, i, open, found) && (s[i] == '[' ==> open.None?)
    ensures Continues(s, i + 1, if s[i] == '[' then Some(i + 1) else open, found)
  {
  }

  lemma AtEnd(s: string, open: Option<nat>, found: seq<string>)
    requires (open.Some? ==> open.value <= |s|) && Continues(s, |s|, open, found)
    ensures ParseFrom(s, 0, None) == if open.Some? then Failed(UnclosedTag) else Tags(found)
  {
    assert found + [] == found;
  }

  /** The first error found is the one reported. */
  lemma FailsHere(s: string, i: nat, open: Option<nat>, found: seq<string>)
    requires i < |s| && (open.Some? ==> open.value <= i) && Continues(s, i, open, found)
    ensures s[i] == '[' && open.Some? ==> ParseFrom(s, 0, None) == Failed(BracketInsideTag)
    ensures s[i] == ']' && open.None? ==> ParseFrom(s, 0, None) == Failed(UnmatchedBracket)
    ensures s[i] == ']' && open.Some? && Refused(s[open.value..i]).Some? ==>
              ParseFrom(s, 0, None) == Failed(Refused(s[open.value..i]).value)
  {
  }

  lemma LastOf(tags: seq<string>)
    requires tags != []
    ensures forall t :: t in tags <==> t in tags[..|tags| - 1] || t == tags[|tags| - 1]
  {
    assert tags == tags[..|tags| - 1] + [tags[|tags| - 1]];
  }

  /** The properties of a test case: each is set by its own tag, and the hidden one by any tag that begins with a
      dot as well. */
  lemma {:induction false} PropertiesMean(tags: seq<string>)
    ensures IsHidden in PropertiesOf(tags) <==>
              "!benchmark" in tags || exists t :: t in tags && t != "" && t[0] == '.'
    ensures Throws in PropertiesOf(tags) <==> "!throws" in tags
    ensures ShouldFail in PropertiesOf(tags) <==> "!shouldfail" in tags
    ensures MayFail in PropertiesOf(tags) <==> "!mayfail" in tags
    ensures NonPortable in PropertiesOf(tags) <==> "!nonportable" in tags
    ensures Benchmark in PropertiesOf(tags) <==> "!benchmark" in tags
  {
    if tags != [] {
      PropertiesMean(tags[..|tags| - 1]);
      LastOf(tags);
      SpecialMeans(tags[|tags| - 1]);
      hide ParseSpecialTag;
      assert forall p :: p in PropertiesOf(tags) <==>
          p in PropertiesOf(tags[..|tags| - 1]) || p in ParseSpecialTag(tags[|tags| - 1]);
    }
  }

  lemma SpecialMeans(t: string)
    ensures IsHidden in ParseSpecialTag(t) <==> t == "!benchmark" || (t != "" && t[0] == '.')
    ensures Throws in ParseSpecialTag(t) <==> t == "!throws"
    ensures ShouldFail in ParseSpecialTag(t) <==> t == "!shouldfail"
    ensures MayFail in ParseSpecialTag(t) <==> t == "!mayfail"
    ensures NonPortable in ParseSpecialTag(t) <==> t == "!nonportable"
    ensures Benchmark in ParseSpecialTag(t) <==> t == "!benchmark"
  {
  }

  /** The tags that are accepted: a digit, a letter or a dot first, or one of five words. */
  ghost predicate Accepted(t: string) {
    || (t != "" && (t[0] == '.' || '0' <= t[0] <= '9' || 'a' <= t[0] <= 'z' || 'A' <= t[0] <= 'Z'))
    || t in {"!throws", "!shouldfail", "!mayfail", "!nonportable", "!benchmark"}
  }

  lemma RefusedMeans(t: string)
    ensures Refused(t) == if Accepted(t) then None else if t == "" then Some(EmptyTag) else Some(ReservedTag)
  {
    SpecialMeans(t);
  }

  lemma {:induction false} BracketedSplit(tags: seq<string>, k: nat)
    requires k < |tags|
    ensures Bracketed(tags[..k + 1]) == Bracketed(tags[..k]) + "[" + tags[k] + "]"
    ensures Bracketed(tags[..k + 1]) <= Bracketed(tags)
  {
    assert tags[..k + 1] == tags[..k] + [tags[k]];
    OneMore(tags[..k], tags[k]);
    if k + 1 == |tags| {
      assert tags[..k + 1] == tags;
    } else {
      BracketedSplit(tags[..|tags| - 1], k);
      assert tags[..|tags| - 1][..k + 1] == tags[..k + 1];
    }
  }

  /** A text without brackets is passed over up to the bracket that closes the tag. */
  lemma {:induction false} PassesText(s: string, i: nat, start: nat, close: nat)
    requires start <= i <= close < |s| && '[' !in s[start..close] && ']' !in s[start..close]
    ensures ParseFrom(s, i, Some(start)) == ParseFrom(s, close, Some(start))
    decreases close - i
  {
    if i < close {
      assert s[i] == s[start..close][i - start];
      PassesText(s, i + 1, start, close);
    }
  }

  lemma TagBetween(before: string, tag: string, s: string)
    requires before + "[" + tag + "]" <= s
    ensures |before| + |tag| + 2 <= |s| && s[|before|] == '[' && s[|before| + 1 + |tag|] == ']'
    ensures s[|before| + 1..|before| + 1 + |tag|] == tag
  {
    var t := before + "[" + tag + "]";
    assert t == s[..|t|];
    assert t[|before|] == '[' && t[|before| + 1 + |tag|] == ']';
    assert t[|before| + 1..|before| + 1 + |tag|] == tag;
  }

  /** The tags in brackets are read back when all are accepted; otherwise the first one that is not, `bad`, says why
      the test case is refused. */
  lemma {:induction false} TagsReadBack(tags: seq<string>, done: nat, bad: nat)
    requires done <= bad <= |tags|
    requires forall t :: t in tags ==> '[' !in t && ']' !in t
    requires forall k :: 0 <= k < bad ==> Accepted(tags[k])
    requires bad < |tags| ==> !Accepted(tags[bad])
    ensures |Bracketed(tags[..done])| <= |Bracketed(tags)|
    ensures ParseFrom(Bracketed(tags), |Bracketed(tags[..done])|, None)
         == if bad == |tags| then Tags(tags[done..])
            else Failed(if tags[bad] == "" then EmptyTag else ReservedTag)
    decreases |tags| - done
  {
    hide Accepted, Bracketed, Refused;
    var s, at := Bracketed(tags), |Bracketed(tags[..done])|;
    if done == |tags| {
      assert tags[..done] == tags && tags[done..] == [];
    } else {
      var tag := tags[done];
      assert tag in tags;
      BracketedSplit(tags, done);
      TagBetween(Bracketed(tags[..done]), tag, s);
      PassesText(s, at + 1, at + 1, at + 1 + |tag|);
      RefusedMeans(tag);
      if done < bad {
        TagsReadBack(tags, done + 1, bad);
        assert [tag] + tags[done + 1..] == tags[done..];
      }
    }
  }

  /** Characters are compared without regard to the case of the 26 letters, bytes above 0x7F before all others. */
  lemma KeyMeans(c: char, d: char)
    requires c < 256 as char && d < 256 as char
    ensures Key(c) == Key(d) <==>
              || c == d
              || ('A' <= c <= 'Z' && d as int == c as int + 32)
              || ('A' <= d <= 'Z' && c as int == d as int + 32)
    ensures !('A' <= c <= 'Z') && !('A' <= d <= 'Z') && (c < 128 as char <==> d < 128 as char) ==>
              (Key(c) < Key(d) <==> c < d)
    ensures d < 128 as char <= c ==> Key(c) < Key(d)
  {
  }

  /** Of two texts the first is less when it ends first or is less at the first place where they differ. */
  lemma {:induction false} LessMeans(s: string, t: string)
    ensures Less(s, t) <==>
              exists k :: 0 <= k <= |s| && k < |t| && Same(s[..k], t[..k]) && (k == |s| || Key(s[k]) < Key(t[k]))
  {
    if s == "" || t == "" {
      if t != "" { assert Same(s[..0], t[..0]); }
    } else {
      LessMeans(s[1..], t[1..]);
      if Key(s[0]) < Key(t[0]) {
        assert Same(s[..0], t[..0]);
      }
      forall k | 0 < k <= |s| && k < |t| ensures Same(s[..k], t[..k]) <==>
          Key(s[0]) == Key(t[0]) && Same(s[1..][..k - 1], t[1..][..k - 1])
      {
        SameStep(s[..k], t[..k]);
        assert s[..k][1..] == s[1..][..k - 1] && t[..k][1..] == t[1..][..k - 1];
      }
      hide Same, Key;
      if Less(s[1..], t[1..]) && Key(s[0]) == Key(t[0]) {
        var j :| 0 <= j <= |s[1..]| && j < |t[1..]| && Same(s[1..][..j], t[1..][..j])
            && (j == |s[1..]| || Key(s[1..][j]) < Key(t[1..][j]));
        assert s[1..][..j + 1 - 1] == s[1..][..j] && t[1..][..j + 1 - 1] == t[1..][..j];
        assert Same(s[..j + 1], t[..j + 1]);
      }
      if k :| 0 <= k <= |s| && k < |t| && Same(s[..k], t[..k]) && (k == |s| || Key(s[k]) < Key(t[k])) {
        if k > 0 {
          assert Same(s[1..][..k - 1], t[1..][..k - 1]);
        }
      }
    }
  }

  lemma SameStep(s: string, t: string)
    requires s != "" && t != ""
    ensures Same(s, t) <==> Key(s[0]) == Key(t[0]) && Same(s[1..], t[1..])
  {
    if Key(s[0]) == Key(t[0]) && Same(s[1..], t[1..]) {
      forall k | 0 <= k < |s| ensures Key(s[k]) == Key(t[k]) {
        assert k > 0 ==> s[k] == s[1..][k - 1] && t[k] == t[1..][k - 1];
      }
    }
  }

  /** The tags kept: a dot before another text goes, and a hidden test case has the tag "." in the end. */
  lemma KeptMean(tags: seq<string>)
    ensures |KeptTags(tags)| == |tags| + (if IsHidden in PropertiesOf(tags) then 1 else 0)
    ensures IsHidden in PropertiesOf(tags) ==> KeptTags(tags)[|tags|] == "."
    ensures forall k, text :: 0 <= k < |tags| && text != "" && tags[k] == "." + text ==> KeptTags(tags)[k] == text
    ensures forall k :: 0 <= k < |tags| && (tags[k] == "." || tags[k] == "" || tags[k][0] != '.') ==>
              KeptTags(tags)[k] == tags[k]
  {
    forall k, text | 0 <= k < |tags| && text != "" && tags[k] == "." + text ensures KeptTags(tags)[k] == text {
      assert ("." + text)[1..] == text;
    }
  }

  lemma PartsOf(s: string, start: nat, dot: nat)
    requires start <= dot < |s| && s[dot] == '.' && '.' !in s[dot + 1..]
    requires '/' !in s[start..dot] && '\\' !in s[start..dot] && (start > 0 ==> s[start - 1] in "/\\")
    ensures FilenamePart(s) == s[start..dot]
  {
    assert forall k :: dot < k < |s| ==> s[k] == s[dot + 1..][k - dot - 1];
    assert forall k :: start <= k < dot ==> s[k] == s[start..dot][k - start];
    assert LastDot(s, |s|) == dot + 1;
    assert NameStart(s, dot) == start;
  }

  /** The name of a file between its directory and its last dot. */
  lemma FilenameMeans(directory: string, name: string, extension: string)
    requires directory == "" || directory[|directory| - 1] in "/\\"
    requires '/' !in name && '\\' !in name && '.' !in extension
    ensures FilenamePart(directory + name + "." + extension) == name
  {
    hide FilenamePart;
    var s := directory + name + "." + extension;
    var start, dot := |directory|, |directory| + |name|;
    assert s[start..dot] == name && s[dot + 1..] == extension && s[dot] == '.';
    assert start > 0 ==> s[start - 1] == directory[start - 1];
    PartsOf(s, start, dot);
  }
}
