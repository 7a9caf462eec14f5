/** Expanding the includes of the library's own headers into one file. */
module IncludeExpansion {

  const USER_CONFIG := "catch2/catch_user_config.hpp"

  /** A line of a source file: one of the copyright lines, an include of one of the library's headers, or
      anything else. */
  datatype Line = Copyright | Include(header: string) | Text(text: string)

  type Files = map<string, seq<Line>>

  ghost function Includes(lines: seq<Line>): set<string> {
    set i | 0 <= i < |lines| && lines[i].Include? :: lines[i].header
  }

  ghost function AllNames(files: Files): (names: set<string>)
    ensures forall f :: f in files ==> Includes(files[f]) <= names
  {
    set f, h | f in files && h in Includes(files[f]) :: h
  }

  /** `path` follows includes from the file with the lines `lines`; the user configuration is not followed. */
  ghost predicate IncludePath(files: Files, lines: seq<Line>, path: seq<string>)
    decreases |path|
  {
    && path != []
    && path[0] in Includes(lines)
    && (|path| > 1 ==> path[0] != USER_CONFIG && path[0] in files && IncludePath(files, files[path[0]], path[1..]))
  }

  /** A header that is included from the file, directly or through other headers. */
  ghost predicate Reachable(files: Files, lines: seq<Line>, header: string) {
    exists path :: IncludePath(files, lines, path) && path[|path| - 1] == header
  }

  lemma ReachableDirectly(files: Files, lines: seq<Line>, header: string)
    requires header in Includes(lines)
    ensures Reachable(files, lines, header)
  {
    assert IncludePath(files, lines, [header]);
  }

  lemma ReachableThrough(files: Files, lines: seq<Line>, header: string, further: string)
    requires header in Includes(lines) && header != USER_CONFIG && header in files
    requires Reachable(files, files[header], further)
    ensures Reachable(files, lines, further)
  {
    var path :| IncludePath(files, files[header], path) && path[|path| - 1] == further;
    assert ([header] + path)[1..] == path;
    assert IncludePath(files, lines, [header] + path);
  }

  /** What is included from the lines and, from then on, from every header in the set is in the set. */
  ghost predicate Closed(files: Files, headers: set<string>, visited: set<string>) {
    forall h :: h in headers && h != USER_CONFIG ==> h in files && Includes(files[h]) <= visited
  }

  lemma {:induction false} ReachableIsVisited(files: Files, lines: seq<Line>, path: seq<string>, visited: set<string>)
    requires Includes(lines) <= visited && Closed(files, visited, visited) && IncludePath(files, lines, path)
    ensures path[|path| - 1] in visited
    decreases |path|
  {
    if |path| > 1 {
      ReachableIsVisited(files, files[path[0]], path[1..], visited);
    }
  }

  ghost function TextOf(lines: seq<Line>): seq<string> {
    if lines == [] then []
    else (if lines[0].Text? then [lines[0].text] else []) + TextOf(lines[1..])
  }

  /** The text lines of the headers, each header's once for each time it is listed. */
  ghost function TextOfAll(files: Files, headers: seq<string>): multiset<string> {
    if headers == [] then multiset{}
    else
      (if headers[0] in files then multiset(TextOf(files[headers[0]])) else multiset{}) + TextOfAll(files, headers[1..])
  }

  lemma {:induction false} TextOfBoth(files: Files, a: seq<string>, b: seq<string>)
    ensures TextOfAll(files, a + b) == TextOfAll(files, a) + TextOfAll(files, b)
    decreases |a|
  {
    if a == [] {
      assert a + b == b;
    } else {
      assert (a + b)[1..] == a[1..] + b;
      TextOfBoth(files, a[1..], b);
    }
  }

  lemma {:induction false} TextOfUpTo(lines: seq<Line>, i: nat)
    requires i < |lines|
    ensures TextOf(lines[..i + 1]) == TextOf(lines[..i]) + (if lines[i].Text? then [lines[i].text] else [])
    decreases i
  {
    if i == 0 {
      assert lines[..1] == [lines[0]] && lines[..0] == [];
    } else {
      TextOfUpTo(lines[1..], i - 1);
      assert lines[..i + 1][1..] == lines[1..][..i] && lines[..i][1..] == lines[1..][..i - 1];
    }
  }

  /** Each header is listed once, and they are exactly the ones of the set that get expanded. */
  ghost predicate Lists(headers: seq<string>, added: set<string>) {
    && |headers| == |added - {USER_CONFIG}|
    && (set h | h in headers) == added - {USER_CONFIG}
  }

  lemma ListsBoth(a: seq<string>, s: set<string>, b: seq<string>, t: set<string>)
    requires Lists(a, s) && Lists(b, t) && s !! t
    ensures Lists(a + b, s + t)
  {
    assert (s + t) - {USER_CONFIG} == (s - {USER_CONFIG}) + (t - {USER_CONFIG});
    assert forall h :: h in a + b <==> h in a || h in b;
  }

  lemma {:induction false} SubsetSize(a: set<string>, b: set<string>)
    requires a <= b
    ensures |a| <= |b|
  {
    if a != {} {
      var x :| x in a;
      SubsetSize(a - {x}, b - {x});
    }
  }

  lemma Fewer(names: set<string>, before: set<string>, visited: set<string>)
    requires before <= visited
    ensures |names - visited| <= |names - before|
  {
    SubsetSize(names - visited, names - before);
  }

  lemma Smaller(names: set<string>, before: set<string>, visited: set<string>, header: string)
    requires header in names && header !in visited && before <= visited
    ensures |names - (visited + {header})| < |names - before|
  {
    var fewer, more := names - (visited + {header}), names - before;
    assert fewer <= more - {header};
    SubsetSize(fewer, more - {header});
  }

  lemma IncludesStep(lines: seq<Line>, i: nat)
    requires i < |lines|
    ensures Includes(lines[..i + 1]) == Includes(lines[..i]) + (if lines[i].Include? then {lines[i].header} else {})
    ensures lines[i].Include? ==> lines[i].header in Includes(lines)
    ensures lines[..|lines|] == lines
  {
    forall h | h in Includes(lines[..i]) ensures h in Includes(lines[..i + 1]) {
      var j :| 0 <= j < i && lines[..i][j].Include? && lines[..i][j].header == h;
      assert lines[..i + 1][j].header == h;
    }
    assert lines[..i + 1][i] == lines[i];
    var both := Includes(lines[..i]) + (if lines[i].Include? then {lines[i].header} else {});
    forall h | h in Includes(lines[..i + 1]) ensures h in both {
      var j :| 0 <= j <= i && lines[..i + 1][j].Include? && lines[..i + 1][j].header == h;
      assert j < i ==> lines[..i][j].header == h;
    }
  }

  lemma Deeper(files: Files, lines: seq<Line>, i: nat, visited: set<string>)
    requires i < |lines| && Includes(lines) <= AllNames(files) && lines[i].Include? && lines[i].header !in visited
    ensures |AllNames(files) - (visited + {lines[i].header})| < |AllNames(files) - visited|
  {
    hide AllNames;
    IncludesStep(lines, i);
    Smaller(AllNames(files), visited, visited, lines[i].header);
  }

  /** What expanding comes to: a header that does not exist, or the lines written and all the headers seen. */
  datatype Expansion = Missing | Expanded(out: seq<string>, visited: set<string>)

  function Behind(out: seq<string>, r: Expansion): Expansion {
    match r
    case Missing => Missing
    case Expanded(later, visited) => Expanded(out + later, visited)
  }

  /** Including each header where it is included first, as if every one were guarded: the lines from `i` on,
      when the headers `visited` were seen before. */
  ghost function Expand(files: Files, lines: seq<Line>, i: nat, expand: bool, visited: set<string>): (r: Expansion)
    requires i <= |lines| && Includes(lines) <= AllNames(files)
    ensures r.Expanded? ==> visited <= r.visited
    decreases |AllNames(files) - visited|, |lines| - i, 1
  {
    if i == |lines| then Expanded([], visited)
    else if lines[i].Include? && expand && lines[i].header !in visited then ExpandFirst(files, lines, i, visited)
    else Behind(if lines[i].Text? then [lines[i].text] else [], Expand(files, lines, i + 1, expand, visited))
  }

  /** The lines from `i` on, the first of which includes a header not seen before. */
  ghost function ExpandFirst(files: Files, lines: seq<Line>, i: nat, visited: set<string>): (r: Expansion)
    requires i < |lines| && Includes(lines) <= AllNames(files) && lines[i].Include? && lines[i].header !in visited
    ensures r.Expanded? ==> visited <= r.visited
    decreases |AllNames(files) - visited|, |lines| - i, 0
  {
    var header := lines[i].header;
    Deeper(files, lines, i, visited);
    if header == USER_CONFIG then Expand(files, lines, i + 1, true, visited + {header})
    else if header !in files then Missing
    else
      match Expand(files, files[header], 0, true, visited + {header})
      case Missing => Missing
      case Expanded(own, seen) =>
        Fewer(AllNames(files), visited, seen);
        Behind(own, Expand(files, lines, i + 1, true, seen))
  }

  lemma ExpandNone(files: Files, lines: seq<Line>, expand: bool, visited: set<string>)
    requires Includes(lines) <= AllNames(files)
    ensures Expand(files, lines, |lines|, expand, visited) == Expanded([], visited)
    ensures Expand(files, lines, 0, expand, visited) == Behind([], Expand(files, lines, 0, expand, visited))
  {
    match Expand(files, lines, 0, expand, visited)
    case Missing =>
    case Expanded(out, _) => assert [] + out == out;
  }

  lemma BehindBoth(a: seq<string>, b: seq<string>, r: Expansion)
    ensures Behind(a, Behind(b, r)) == Behind(a + b, r) && a + [] == a
  {
    if r.Expanded? {
      assert a + (b + r.out) == a + b + r.out;
    }
  }

  /** A line other than the first include of a header. */
  lemma ExpandPlain(files: Files, lines: seq<Line>, i: nat, expand: bool, visited: set<string>)
    requires i < |lines| && Includes(lines) <= AllNames(files)
    requires lines[i].Include? && expand ==> lines[i].header in visited
    ensures Expand(files, lines, i, expand, visited)
         == Behind(if lines[i].Text? then [lines[i].text] else [], Expand(files, lines, i + 1, expand, visited))
  {
  }

  /** The first include of a header. */
  lemma ExpandHeader(files: Files, lines: seq<Line>, i: nat, visited: set<string>)
    requires i < |lines| && Includes(lines) <= AllNames(files) && lines[i].Include? && lines[i].header !in visited
    ensures var header := lines[i].header;
      && (header == USER_CONFIG ==>
            Expand(files, lines, i, true, visited) == Behind([], Expand(files, lines, i + 1, true, visited + {header})))
      && (header != USER_CONFIG && header !in files ==> Expand(files, lines, i, true, visited) == Missing)
      && (header != USER_CONFIG && header in files ==>
            match Expand(files, files[header], 0, true, visited + {header})
            case Missing => Expand(files, lines, i, true, visited) == Missing
            case Expanded(own, seen) => Expand(files, lines, i, true, visited)
                                        == Behind(own, Expand(files, lines, i + 1, true, seen)))
  {
    hide AllNames, Includes;
    if lines[i].header == USER_CONFIG {
      match Expand(files, lines, i + 1, true, visited + {lines[i].header})
      case Missing =>
      case Expanded(out, _) => assert [] + out == out;
    }
  }

  /** What appending the first `i` of the lines has done to the headers visited: those added are reachable,
      and what they and the lines include is visited too. */
  ghost predicate Visits(files: Files, lines: seq<Line>, i: nat, expand: bool, before: set<string>, now: set<string>)
    requires i <= |lines|
  {
    && before <= now
    && (if expand then Includes(lines[..i]) <= now else now == before)
    && Closed(files, now - before, now)
    && (forall h :: h in now - before ==> Reachable(files, lines, h))
  }

  lemma VisitsSkip(files: Files, lines: seq<Line>, i: nat, expand: bool, before: set<string>, now: set<string>)
    requires i < |lines| && Visits(files, lines, i, expand, before, now)
    requires lines[i].Include? && expand ==> lines[i].header in now
    ensures Visits(files, lines, i + 1, expand, before, now)
  {
    IncludesStep(lines, i);
  }

  lemma VisitsUserConfig(files: Files, lines: seq<Line>, i: nat, before: set<string>, now: set<string>)
    requires i < |lines| && Visits(files, lines, i, true, before, now) && lines[i] == Include(USER_CONFIG)
    ensures Visits(files, lines, i + 1, true, before, now + {USER_CONFIG})
  {
    IncludesStep(lines, i);
    ReachableDirectly(files, lines, USER_CONFIG);
  }

  /** A header was expanded: `next` is what is visited after its own lines. */
  lemma VisitsHeader(files: Files, lines: seq<Line>, i: nat, before: set<string>, now: set<string>, next: set<string>)
    requires i < |lines| && Visits(files, lines, i, true, before, now)
    requires lines[i].Include? && lines[i].header != USER_CONFIG && lines[i].header in files && lines[i].header !in now
    requires var own := files[lines[i].header]; Visits(files, own, |own|, true, now + {lines[i].header}, next)
    ensures Visits(files, lines, i + 1, true, before, next)
  {
    var header := lines[i].header;
    var own := files[header];
    IncludesStep(lines, i);
    assert own[..|own|] == own;
    ReachableDirectly(files, lines, header);
    forall h | h in next - before ensures Reachable(files, lines, h) {
      if h in next - (now + {header}) {
        ReachableThrough(files, lines, header, h);
      }
    }
    forall h | h in next - before && h != USER_CONFIG ensures h in files && Includes(files[h]) <= next {
      if h !in next - (now + {header}) && h != header {
        assert h in now - before;
      }
    }
  }

  /** What appending the first `i` of the lines has done to the output: each header added to the visited ones
      is expanded once and counted, and the text lines of the expanded files are what is written. */
  ghost predicate Written(files: Files, lines: seq<Line>, i: nat, added: set<string>, headers: seq<string>,
          text: seq<string>, count: nat)
    requires i <= |lines|
  {
    && Lists(headers, added)
    && count == 1 + |headers|
    && multiset(text) == multiset(TextOf(lines[..i])) + TextOfAll(files, headers)
  }

  lemma WrittenStep(files: Files, lines: seq<Line>, i: nat, added: set<string>, headers: seq<string>, text: seq<string>,
          count: nat)
    requires i < |lines| && Written(files, lines, i, added, headers, text, count)
    ensures !lines[i].Text? ==> Written(files, lines, i + 1, added, headers, text, count)
    ensures lines[i].Text? ==> Written(files, lines, i + 1, added, headers, text + [lines[i].text], count)
  {
    TextOfUpTo(lines, i);
  }

  lemma WrittenUserConfig(files: Files, lines: seq<Line>, i: nat, added: set<string>, headers: seq<string>,
          text: seq<string>, count: nat)
    requires i < |lines| && Written(files, lines, i, added, headers, text, count) && lines[i] == Include(USER_CONFIG)
    ensures Written(files, lines, i + 1, added + {USER_CONFIG}, headers, text, count)
  {
    WrittenStep(files, lines, i, added, headers, text, count);
    assert (added + {USER_CONFIG}) - {USER_CONFIG} == added - {USER_CONFIG};
  }

  lemma WrittenHeader(files: Files, lines: seq<Line>, i: nat, added: set<string>, headers: seq<string>,
          text: seq<string>, count: nat,
                      more: set<string>, inner: seq<string>, innerText: seq<string>, innerCount: nat)
    requires i < |lines| && Written(files, lines, i, added, headers, text, count)
    requires lines[i].Include? && lines[i].header != USER_CONFIG && lines[i].header in files
    requires lines[i].header !in added + more && added !! more
    requires var own := files[lines[i].header]; Written(files, own, |own|, more, inner, innerText, innerCount)
    ensures Written(files, lines, i + 1, added + {lines[i].header} + more, headers + [lines[i].header] + inner,
        text + innerText, count + innerCount)
  {
    hide Includes, Lists;
    var header := lines[i].header;
    WrittenStep(files, lines, i, added, headers, text, count);
    ListsOne(header);
    ListsBoth(headers, added, [header], {header});
    ListsBoth(headers + [header], added + {header}, inner, more);
    TextOfBoth(files, headers + [header], inner);
    TextOfBoth(files, headers, [header]);
    assert files[header][..|files[header]|] == files[header];
    assert TextOfAll(files, [header]) == multiset(TextOf(files[header])) + TextOfAll(files, []);
  }

  lemma ListsOne(header: string)
    requires header != USER_CONFIG
    ensures Lists([header], {header})
  {
    assert {header} - {USER_CONFIG} == {header};
    assert (set h | h in [header]) == {header};
  }

  class Amalgamation {
    /** The headers that were already expanded. */
    var concatenatedHeaders: set<string>
    var out: seq<string>
    /** The headers that were expanded, in this order. */
    ghost var expanded: seq<string>

    constructor ()
      ensures concatenatedHeaders == {} && out == [] && expanded == []
    {
      concatenatedHeaders := {};
      out := [];
      expanded := [];
    }

    /** Appends a file with its includes expanded, unless they were before; counts the files appended. Fails
        when a file is missing. */
    method ConcatenateFile(files: Files, filename: string, expandHeaders: bool)
      returns (ok: bool, concatenated: nat, ghost headers: seq<string>, ghost text: seq<string>)
      modifies this
      ensures old(concatenatedHeaders) <= concatenatedHeaders
      ensures ok ==>
                && filename in files
                && Visits(files, files[filename], |files[filename]|, expandHeaders, old(concatenatedHeaders),
                    concatenatedHeaders)
                && Written(files, files[filename], |files[filename]|, concatenatedHeaders - old(concatenatedHeaders),
                    headers, text, concatenated)
                && expanded == old(expanded) + headers && out == old(out) + text
                && Expand(files, files[filename], 0, expandHeaders, old(concatenatedHeaders))
                    == Expanded(text, concatenatedHeaders)
      ensures !ok && filename in files ==>
          Expand(files, files[filename], 0, expandHeaders, old(concatenatedHeaders)) == Missing
      ensures !ok ==> filename !in files || exists h ::
          h !in files && h != USER_CONFIG && Reachable(files, files[filename], h)
      decreases |AllNames(files) - concatenatedHeaders|, 1
    {
      hide Visits, Written, Reachable, Lists, TextOf, TextOfAll, Closed, IncludePath, Includes, AllNames, Expand,
          Behind;
      ok, concatenated, headers, text := true, 1, [], [];
      if filename !in files {
        ok := false;
        return;
      }
      var lines := files[filename];
      NothingYet(files, lines, expandHeaders, concatenatedHeaders);
      ExpandNone(files, lines, expandHeaders, concatenatedHeaders);
      var i := 0;
      while i < |lines|
        invariant i <= |lines| && old(concatenatedHeaders) <= concatenatedHeaders && ok
        invariant Visits(files, lines, i, expandHeaders, old(concatenatedHeaders), concatenatedHeaders)
        invariant Written(files, lines, i, concatenatedHeaders - old(concatenatedHeaders), headers, text, concatenated)
        invariant expanded == old(expanded) + headers && out == old(out) + text
        invariant Expand(files, lines, 0, expandHeaders, old(concatenatedHeaders))
            == Behind(text, Expand(files, lines, i, expandHeaders, concatenatedHeaders))
        decreases |lines| - i
      {
        var line := lines[i];
        if line.Include? && expandHeaders && line.header !in concatenatedHeaders {
          IncludesStep(lines, i);
          Fewer(AllNames(files), old(concatenatedHeaders), concatenatedHeaders);
          ghost var more, moreText;
          ok, concatenated, more, moreText := IncludeHeader(files, lines, i, old(concatenatedHeaders), headers, text,
              concatenated);
          if !ok {
            BehindMissing(text);
            return;
          }
          BehindBoth(text, moreText, Expand(files, lines, i + 1, true, concatenatedHeaders));
          Regroup(old(expanded), headers, more);
          Regroup(old(out), text, moreText);
          headers, text := headers + more, text + moreText;
        } else {
          VisitsSkip(files, lines, i, expandHeaders, old(concatenatedHeaders), concatenatedHeaders);
          WrittenStep(files, lines, i, concatenatedHeaders - old(concatenatedHeaders), headers, text, concatenated);
          ExpandPlain(files, lines, i, expandHeaders, concatenatedHeaders);
          BehindBoth(text, if line.Text? then [line.text] else [],
              Expand(files, lines, i + 1, expandHeaders, concatenatedHeaders));
          if line.Text? {
            Regroup(old(out), text, [line.text]);
            out := out + [line.text];
            text := text + [line.text];
          }
        }
        i := i + 1;
      }
      ExpandNone(files, lines, expandHeaders, concatenatedHeaders);
      BehindNothing(text, concatenatedHeaders);
    }

    /** Handles line `i`, which includes a header not seen before. */
    method IncludeHeader(files: Files, lines: seq<Line>, i: nat, ghost before: set<string>,
                         ghost headers: seq<string>, ghost text: seq<string>, concatenated: nat)
      returns (ok: bool, count: nat, ghost more: seq<string>, ghost moreText: seq<string>)
      requires i < |lines| && lines[i].Include? && lines[i].header !in concatenatedHeaders
          && Includes(lines) <= AllNames(files)
      requires Visits(files, lines, i, true, before, concatenatedHeaders) && before <= concatenatedHeaders
      requires Written(files, lines, i, concatenatedHeaders - before, headers, text, concatenated)
      modifies this
      ensures old(concatenatedHeaders) <= concatenatedHeaders
      ensures ok ==>
                && Visits(files, lines, i + 1, true, before, concatenatedHeaders)
                && Written(files, lines, i + 1, concatenatedHeaders - before, headers + more, text + moreText, count)
                && expanded == old(expanded) + more && out == old(out) + moreText
                && Expand(files, lines, i, true, old(concatenatedHeaders))
                    == Behind(moreText, Expand(files, lines, i + 1, true, concatenatedHeaders))
      ensures !ok ==> Expand(files, lines, i, true, old(concatenatedHeaders)) == Missing
      ensures !ok ==> exists h :: h !in files && h != USER_CONFIG && Reachable(files, lines, h)
      decreases |AllNames(files) - concatenatedHeaders|, 0
    {
      hide Visits, Written, Reachable, Lists, TextOf, TextOfAll, Closed, IncludePath, Includes, AllNames, Expand,
          Behind;
      var header := lines[i].header;
      ghost var now := concatenatedHeaders;
      ok, count := true, concatenated;
      IncludesStep(lines, i);
      ExpandHeader(files, lines, i, now);
      concatenatedHeaders := concatenatedHeaders + {header};
      if header == USER_CONFIG {
        UserConfigDone(files, lines, i, before, now, headers, text, concatenated);
        more, moreText := [], [];
      } else {
        expanded := expanded + [header];
        Smaller(AllNames(files), now, now, header);
        var inner;
        ok, inner, more, moreText := ConcatenateFile(files, header, true);
        if !ok {
          MissingBelow(files, lines, header);
          return;
        }
        HeaderDone(files, lines, i, before, now, concatenatedHeaders, headers, text, concatenated, more, moreText,
            inner);
        Regroup(old(expanded), [header], more);
        count := concatenated + inner;
        more := [header] + more;
      }
    }
  }

  lemma UserConfigDone(files: Files, lines: seq<Line>, i: nat, before: set<string>, now: set<string>,
                       headers: seq<string>, text: seq<string>, count: nat)
    requires i < |lines| && lines[i] == Include(USER_CONFIG) && USER_CONFIG !in now && before <= now
    requires Visits(files, lines, i, true, before, now) && Written(files, lines, i, now - before, headers, text, count)
    ensures var after := now + {USER_CONFIG};
      && Visits(files, lines, i + 1, true, before, after)
      && Written(files, lines, i + 1, after - before, headers + [], text + [], count)
  {
    hide Visits, Written;
    VisitsUserConfig(files, lines, i, before, now);
    WrittenUserConfig(files, lines, i, now - before, headers, text, count);
    assert (now + {USER_CONFIG}) - before == (now - before) + {USER_CONFIG};
    assert headers + [] == headers && text + [] == text;
  }

  lemma HeaderDone(files: Files, lines: seq<Line>, i: nat, before: set<string>, now: set<string>, after: set<string>,
                   headers: seq<string>, text: seq<string>, count: nat, inner: seq<string>, innerText: seq<string>,
                       innerCount: nat)
    requires i < |lines| && lines[i].Include? && lines[i].header != USER_CONFIG && lines[i].header in files
        && lines[i].header !in now
    requires before <= now && now + {lines[i].header} <= after
    requires Visits(files, lines, i, true, before, now) && Written(files, lines, i, now - before, headers, text, count)
    requires var own := files[lines[i].header];
      && Visits(files, own, |own|, true, now + {lines[i].header}, after)
      && Written(files, own, |own|, after - (now + {lines[i].header}), inner, innerText, innerCount)
    ensures Visits(files, lines, i + 1, true, before, after)
    ensures Written(files, lines, i + 1, after - before, headers + ([lines[i].header] + inner), text + innerText,
        count + innerCount)
  {
    hide Visits, Written;
    var header := lines[i].header;
    var added := after - (now + {header});
    VisitsHeader(files, lines, i, before, now, after);
    WrittenHeader(files, lines, i, now - before, headers, text, count, added, inner, innerText, innerCount);
    assert after - before == (now - before) + {header} + added;
    Regroup(headers, [header], inner);
  }

  lemma BehindMissing(out: seq<string>)
    ensures Behind(out, Missing) == Missing
  {
  }

  lemma BehindNothing(out: seq<string>, visited: set<string>)
    ensures Behind(out, Expanded([], visited)) == Expanded(out, visited)
  {
    assert out + [] == out;
  }

  lemma Regroup(a: seq<string>, b: seq<string>, c: seq<string>)
    ensures a + b + c == a + (b + c)
  {
  }

  lemma NothingYet(files: Files, lines: seq<Line>, expand: bool, before: set<string>)
    ensures Visits(files, lines, 0, expand, before, before)
    ensures Written(files, lines, 0, before - before, [], [], 1)
  {
    assert before - before == {};
    assert (set h: string | h in []) == {};
    assert {} - {USER_CONFIG} == {};
  }

  lemma MissingBelow(files: Files, lines: seq<Line>, header: string)
    requires header in Includes(lines) && header != USER_CONFIG
    requires header !in files || exists h :: h !in files && h != USER_CONFIG && Reachable(files, files[header], h)
    ensures exists h :: h !in files && h != USER_CONFIG && Reachable(files, lines, h)
  {
    if header in files {
      var h :| h !in files && h != USER_CONFIG && Reachable(files, files[header], h);
      ReachableThrough(files, lines, header, h);
    } else {
      ReachableDirectly(files, lines, header);
    }
  }

  /** Expanding a starting header that exists ends on every include graph. It succeeds if and only if every
      header reachable from it exists, apart from the user configuration. Then the headers visited are exactly
      the reachable ones, each but the user configuration is expanded once, the result counts them and the
      start, and the text lines of all of them are written, once each. */
  method GenerateHeader(files: Files, start: string) returns (ok: bool, count: nat, header: Amalgamation)
    requires start in files
    ensures fresh(header)
    ensures ok <==> forall h :: Reachable(files, files[start], h) && h != USER_CONFIG ==> h in files
    ensures ok ==>
              && (forall h :: h in header.concatenatedHeaders <==> Reachable(files, files[start], h))
              && Lists(header.expanded, header.concatenatedHeaders)
              && count == 1 + |header.concatenatedHeaders - {USER_CONFIG}|
              && multiset(header.out) == multiset(TextOf(files[start])) + TextOfAll(files, header.expanded)
    ensures Expand(files, files[start], 0, true, {}) == if ok then Expanded(header.out, header.concatenatedHeaders)
        else Missing
  {
    hide Visits, Written, Reachable, Lists, TextOf, TextOfAll;
    header := new Amalgamation();
    ghost var headers, text;
    ok, count, headers, text := header.ConcatenateFile(files, start, true);
    if ok {
      AllReached(files, files[start], header.concatenatedHeaders, headers, text, count);
    }
  }

  lemma AllReached(files: Files, lines: seq<Line>, visited: set<string>, headers: seq<string>, text: seq<string>,
          count: nat)
    requires Visits(files, lines, |lines|, true, {}, visited)
        && Written(files, lines, |lines|, visited - {}, headers, text, count)
    ensures [] + headers == headers && [] + text == text
    ensures forall h :: h in visited <==> Reachable(files, lines, h)
    ensures forall h :: h in visited && h != USER_CONFIG ==> h in files
    ensures Lists(headers, visited) && count == 1 + |visited - {USER_CONFIG}|
    ensures multiset(text) == multiset(TextOf(lines)) + TextOfAll(files, headers)
  {
    assert lines[..|lines|] == lines && visited - {} == visited;
    forall h | Reachable(files, lines, h) ensures h in visited {
      var path :| IncludePath(files, lines, path) && path[|path| - 1] == h;
      ReachableIsVisited(files, lines, path, visited);
    }
  }

  lemma {:induction false} SetOfFew(headers: seq<string>)
    ensures |set h | h in headers| <= |headers|
  {
    if headers != [] {
      var rest := set h | h in headers[1..];
      SetOfFew(headers[1..]);
      assert (set h | h in headers) == rest + {headers[0]};
    }
  }

  /** A header listed once is gone when its place is left out. */
  lemma ListedOnce(headers: seq<string>, k: nat)
    requires k < |headers| && |headers| == |set h | h in headers|
    ensures headers[k] !in headers[..k] + headers[k + 1..]
  {
    var others := headers[..k] + headers[k + 1..];
    if headers[k] in others {
      forall h | h in headers ensures h in others {
        var j :| 0 <= j < |headers| && headers[j] == h;
        assert j < k ==> others[j] == h;
        assert j > k ==> others[j - 1] == h;
      }
      FewerListed(headers, others);
    }
  }

  lemma FewerListed(headers: seq<string>, others: seq<string>)
    requires forall h :: h in headers ==> h in others
    ensures |set h | h in headers| <= |others|
  {
    SetOfFew(others);
    SubsetSize(set h | h in headers, set h | h in others);
  }

  /** After a successful expansion, the text lines of the starting header are written once at its own start, and
      once more if and only if it is reachable from itself and not the user configuration; for it is not among the
      headers seen when it starts. */
  lemma StartTwice(files: Files, start: string, headers: seq<string>, visited: set<string>)
          returns (others: seq<string>)
    requires start in files && Lists(headers, visited)
    requires forall h :: h in visited <==> Reachable(files, files[start], h)
    ensures start !in others && forall h :: h in others ==> h in headers
    ensures var own := multiset(TextOf(files[start]));
      own + TextOfAll(files, headers)
      == own + (if start != USER_CONFIG && Reachable(files, files[start], start) then own else multiset{})
          + TextOfAll(files, others)
  {
    hide Reachable, TextOf;
    if start in visited && start != USER_CONFIG {
      assert start in visited - {USER_CONFIG};
      var k :| 0 <= k < |headers| && headers[k] == start;
      others := headers[..k] + headers[k + 1..];
      ListedOnce(headers, k);
      assert headers == headers[..k] + ([start] + headers[k + 1..]);
      TextOfBoth(files, headers[..k], [start] + headers[k + 1..]);
      TextOfBoth(files, headers[..k], headers[k + 1..]);
      assert ([start] + headers[k + 1..])[1..] == headers[k + 1..];
    } else {
      others := headers;
      assert start !in visited - {USER_CONFIG};
      assert start in headers ==> start in (set h | h in headers);
    }
  }
}
