/** Replacing all occurrences of a string, and the escaping of TeamCity messages that is built from it. */
module TeamCityEscape {

  /** `s` with every occurrence of `old_` replaced, from left to right, without looking at what was put in. */
  function Replaced(s: string, old_: string, with: string): string
    requires old_ != ""
    decreases |s|
  {
    if s == "" then ""
    else if old_ <= s then with + Replaced(s[|old_|..], old_, with)
    else [s[0]] + Replaced(s[1..], old_, with)
  }

  predicate OccursAt(s: string, t: string, i: nat) {
    i + |t| <= |s| && s[i..i + |t|] == t
  }

  datatype Position = At(index: nat) | Npos

  /** The first occurrence of `t` in `s` at or after `from`. */
  method Find(s: string, t: string, from: nat) returns (p: Position)
    ensures p.At? ==>
              && from <= p.index && p.index + |t| <= |s| && OccursAt(s, t, p.index)
              && forall j :: from <= j < p.index ==> !OccursAt(s, t, j)
    ensures p.Npos? ==> forall j :: from <= j ==> !OccursAt(s, t, j)
  {
    var i := from;
    while i + |t| <= |s|
      invariant from <= i
      invariant forall j :: from <= j < i ==> !OccursAt(s, t, j)
    {
      if s[i..i + |t|] == t { return At(i); }
      i := i + 1;
    }
    p := Npos;
  }

  lemma FrontOccurs(s: string, t: string)
    ensures t <= s <==> OccursAt(s, t, 0)
  {
  }

  lemma OccursInSuffix(s: string, from: nat, j: nat, t: string)
    requires from <= |s|
    ensures OccursAt(s[from..], t, j) <==> OccursAt(s, t, from + j)
  {
    if from + j + |t| <= |s| {
      assert s[from..][j..j + |t|] == s[from + j..from + j + |t|];
    }
  }

  lemma NoneInSuffix(s: string, from: nat, to: nat, t: string)
    requires from <= |s| && forall j :: from <= j < to ==> !OccursAt(s, t, j)
    ensures forall j :: 0 <= j < to - from ==> !OccursAt(s[from..], t, j)
  {
    hide OccursAt;
    forall j | 0 <= j < to - from ensures !OccursAt(s[from..], t, j) {
      OccursInSuffix(s, from, j, t);
    }
  }

  /** Without an occurrence before `i`, everything up to there is kept. */
  lemma {:induction false} KeptUpTo(s: string, i: nat, old_: string, with: string)
    requires old_ != "" && i <= |s| && forall j :: 0 <= j < i ==> !OccursAt(s, old_, j)
    ensures Replaced(s, old_, with) == s[..i] + Replaced(s[i..], old_, with)
    decreases i
  {
    if i > 0 {
      FrontOccurs(s, old_);
      hide OccursAt;
      NoneInSuffix(s, 1, i, old_);
      KeptUpTo(s[1..], i - 1, old_, with);
      assert Replaced(s, old_, with) == [s[0]] + Replaced(s[1..], old_, with);
      hide Replaced;
      assert s[1..][i - 1..] == s[i..];
      assert [s[0]] + s[1..][..i - 1] == s[..i];
    } else {
      assert s[..0] == "" && s[0..] == s;
    }
  }

  /** The text still to be looked at, from `from` to the next occurrence at `i`. */
  lemma ReplaceNext(s: string, from: nat, i: nat, old_: string, with: string)
    requires old_ != "" && from <= i && i + |old_| <= |s| && OccursAt(s, old_, i)
    requires forall j :: from <= j < i ==> !OccursAt(s, old_, j)
    ensures Replaced(s[from..], old_, with) == s[from..i] + with + Replaced(s[i + |old_|..], old_, with)
  {
    hide OccursAt, Replaced;
    var t := s[from..];
    NoneInSuffix(s, from, i, old_);
    KeptUpTo(t, i - from, old_, with);
    assert t[..i - from] == s[from..i] && t[i - from..] == s[i..];
    ReplaceHere(s, i, old_, with);
    Regroup(s[from..i], with, Replaced(s[i + |old_|..], old_, with));
  }

  lemma ReplaceHere(s: string, i: nat, old_: string, with: string)
    requires old_ != "" && i + |old_| <= |s| && OccursAt(s, old_, i)
    ensures Replaced(s[i..], old_, with) == with + Replaced(s[i + |old_|..], old_, with)
  {
    assert s[i..][..|old_|] == old_;
    assert s[i..][|old_|..] == s[i + |old_|..];
  }

  lemma Regroup(a: string, b: string, c: string)
    ensures a + (b + c) == a + b + c
  {
  }

  lemma ReplaceNone(s: string, from: nat, old_: string, with: string)
    requires old_ != "" && from <= |s| && forall j :: from <= j ==> !OccursAt(s, old_, j)
    ensures Replaced(s[from..], old_, with) == s[from..]
  {
    hide OccursAt;
    var t := s[from..];
    NoneInSuffix(s, from, |s|, old_);
    KeptUpTo(t, |t|, old_, with);
    assert t[..|t|] == t && t[|t|..] == "";
  }

  lemma NoneBehind(s: string, t: string)
    requires t != ""
    ensures forall j :: |s| <= j ==> !OccursAt(s, t, j)
  {
  }

  /** Replaces all occurrences; tells whether there was one. */
  method ReplaceInPlace(str: string, replaceThis: string, withThis: string) returns (replaced: bool, result: string)
    requires replaceThis != ""
    ensures result == Replaced(str, replaceThis, withThis)
    ensures replaced <==> exists j :: OccursAt(str, replaceThis, j)
  {
    hide Replaced, OccursAt;
    var i := Find(str, replaceThis, 0);
    assert str[0..] == str;
    if i == Npos {
      ReplaceNone(str, 0, replaceThis, withThis);
      return false, str;
    }
    assert OccursAt(str, replaceThis, i.index);
    var copyBegin: nat := 0;
    result := "";
    while i != Npos
      invariant copyBegin <= |str| && result + Replaced(str[copyBegin..], replaceThis, withThis)
          == Replaced(str, replaceThis, withThis)
      invariant i.At? ==>
                  && copyBegin <= i.index && i.index + |replaceThis| <= |str| && OccursAt(str, replaceThis, i.index)
                  && forall j :: copyBegin <= j < i.index ==> !OccursAt(str, replaceThis, j)
      invariant i.Npos? ==> forall j :: copyBegin <= j ==> !OccursAt(str, replaceThis, j)
      decreases i.At?, |str| - copyBegin
    {
      ReplaceNext(str, copyBegin, i.index, replaceThis, withThis);
      ghost var rest := Replaced(str[i.index + |replaceThis|..], replaceThis, withThis);
      Regroup(result, str[copyBegin..i.index] + withThis, rest);
      Regroup(result, str[copyBegin..i.index], withThis);
      result := result + str[copyBegin..i.index];
      result := result + withThis;
      copyBegin := i.index + |replaceThis|;
      if copyBegin < |str| {
        i := Find(str, replaceThis, copyBegin);
      } else {
        NoneBehind(str, replaceThis);
        i := Npos;
      }
    }
    ReplaceNone(str, copyBegin, replaceThis, withThis);
    if copyBegin < |str| {
      result := result + str[copyBegin..];
    }
    replaced := true;
  }

  /** What each character becomes. */
  function EscapedChar(c: char): string {
    match c
    case '|' => "||"
    case '\'' => "|'"
    case '\n' => "|n"
    case '\r' => "|r"
    case '[' => "|["
    case ']' => "|]"
    case _ => [c]
  }

  function Escaped(s: string): string {
    if s == "" then "" else EscapedChar(s[0]) + Escaped(s[1..])
  }

  /** The six replacements, one after the other. */
  function Passes(s: string): string {
    var s3 := Replaced(Replaced(Replaced(s, "|", "||"), "'", "|'"), "\n", "|n");
    Replaced(Replaced(Replaced(s3, "\r", "|r"), "[", "|["), "]", "|]")
  }

  method Escape(str: string) returns (escaped: string)
    ensures escaped == Escaped(str)
    ensures Unescaped(escaped) == str
  {
    escaped := str;
    var replaced;
    replaced, escaped := ReplaceInPlace(escaped, "|", "||");
    replaced, escaped := ReplaceInPlace(escaped, "'", "|'");
    replaced, escaped := ReplaceInPlace(escaped, "\n", "|n");
    replaced, escaped := ReplaceInPlace(escaped, "\r", "|r");
    replaced, escaped := ReplaceInPlace(escaped, "[", "|[");
    replaced, escaped := ReplaceInPlace(escaped, "]", "|]");
    PassesAreOne(str);
    UnescapeEscaped(str);
  }

  /** Replacing one character is done in each part on its own. */
  lemma {:induction false} ReplacedJoin(s: string, t: string, c: char, with: string)
    ensures Replaced(s + t, [c], with) == Replaced(s, [c], with) + Replaced(t, [c], with)
    decreases |s|
  {
    if s == "" {
      assert s + t == t;
    } else {
      assert (s + t)[1..] == s[1..] + t;
      assert [c] <= s + t <==> [c] <= s;
      ReplacedJoin(s[1..], t, c, with);
    }
  }

  lemma PassesJoin(s: string, t: string)
    ensures Passes(s + t) == Passes(s) + Passes(t)
  {
    hide Replaced;
    ReplacedJoin(s, t, '|', "||");
    var s1, t1 := Replaced(s, "|", "||"), Replaced(t, "|", "||");
    ReplacedJoin(s1, t1, '\'', "|'");
    var s2, t2 := Replaced(s1, "'", "|'"), Replaced(t1, "'", "|'");
    ReplacedJoin(s2, t2, '\n', "|n");
    var s3, t3 := Replaced(s2, "\n", "|n"), Replaced(t2, "\n", "|n");
    ReplacedJoin(s3, t3, '\r', "|r");
    var s4, t4 := Replaced(s3, "\r", "|r"), Replaced(t3, "\r", "|r");
    ReplacedJoin(s4, t4, '[', "|[");
    var s5, t5 := Replaced(s4, "[", "|["), Replaced(t4, "[", "|[");
    ReplacedJoin(s5, t5, ']', "|]");
  }

  /** One replacement on a string of one or two characters. */
  lemma ReplacedOne(a: char, c: char, with: string)
    ensures Replaced([a], [c], with) == if a == c then with else [a]
  {
    assert [a][1..] == "" && with + "" == with;
    assert [a][0] == a && [c][0] == c;
  }

  lemma ReplacedTwo(a: char, b: char, c: char, with: string)
    requires a != c && b != c
    ensures Replaced([a, b], [c], with) == [a, b]
  {
    ReplacedJoin([a], [b], c, with);
    ReplacedOne(a, c, with);
    ReplacedOne(b, c, with);
    assert [a] + [b] == [a, b];
  }

  /** All but the first pass leave the two characters of an escape alone. */
  lemma PassesChar(a: char)
    ensures Passes([a]) == EscapedChar(a)
  {
    hide Replaced;
    ReplacedOne(a, '|', "||");
    ReplacedOne(a, '\'', "|'");
    ReplacedOne(a, '\n', "|n");
    ReplacedOne(a, '\r', "|r");
    ReplacedOne(a, '[', "|[");
    ReplacedOne(a, ']', "|]");
    var b := match a case '\n' => 'n' case '\r' => 'r' case _ => a;
    if a != '\'' { ReplacedTwo('|', b, '\'', "|'"); }
    ReplacedTwo('|', b, '\n', "|n");
    ReplacedTwo('|', b, '\r', "|r");
    if a != '[' { ReplacedTwo('|', b, '[', "|["); }
    if a != ']' { ReplacedTwo('|', b, ']', "|]"); }
  }

  /** The six passes are one simultaneous substitution, character by character. */
  lemma {:induction false} PassesAreOne(s: string)
    ensures Passes(s) == Escaped(s)
  {
    hide Passes;
    if s == "" {
      PassesNothing();
    } else {
      PassesJoin([s[0]], s[1..]);
      PassesChar(s[0]);
      PassesAreOne(s[1..]);
      assert [s[0]] + s[1..] == s;
    }
  }

  lemma PassesNothing()
    ensures Passes("") == ""
  {
  }

  /** Reads escapes from left to right. */
  function Unescaped(s: string): string {
    if |s| < 2 || s[0] != '|' then (if s == "" then "" else [s[0]] + Unescaped(s[1..]))
    else [match s[1] case 'n' => '\n' case 'r' => '\r' case c => c] + Unescaped(s[2..])
  }

  lemma UnescapeOne(c: char, rest: string)
    ensures Unescaped(EscapedChar(c) + rest) == [c] + Unescaped(rest)
  {
    var e := EscapedChar(c);
    assert (e + rest)[|e|..] == rest;
  }

  lemma {:induction false} UnescapeEscaped(s: string)
    ensures Unescaped(Escaped(s)) == s
  {
    if s != "" {
      UnescapeEscaped(s[1..]);
      UnescapeOne(s[0], Escaped(s[1..]));
      hide Unescaped;
      assert [s[0]] + s[1..] == s;
    }
  }

  /** Outside an escape, which is '|' and one of six characters, there is no '|', quote, bracket or end of line. */
  predicate Clean(s: string)
    decreases |s|
  {
    s == "" || if s[0] == '|' then |s| > 1 && s[1] in "|'nr[]" && Clean(s[2..]) else s[0] !in "'\n\r[]" && Clean(s[1..])
  }

  lemma EscapedCharClean(a: char, rest: string)
    requires Clean(rest)
    ensures Clean(EscapedChar(a) + rest)
  {
    var s := EscapedChar(a) + rest;
    if |EscapedChar(a)| == 2 {
      assert s[2..] == rest;
    } else {
      assert s[1..] == rest;
    }
  }

  /** Nothing is left unescaped that must be escaped. */
  lemma {:induction false} EscapedIsClean(s: string)
    ensures Clean(Escaped(s))
  {
    if s != "" {
      EscapedIsClean(s[1..]);
      EscapedCharClean(s[0], Escaped(s[1..]));
    }
  }

  /** Each character is escaped by itself: four with a bar before them, the ends of line by a letter. */
  lemma {:induction false} EscapedMeans(s: string, c: char, t: string)
    ensures Escaped(s + [c] + t)
        == Escaped(s)
           + (if c in "|'[]" then ['|', c] else if c == '\n' then "|n" else if c == '\r' then "|r" else [c])
           + Escaped(t)
    decreases |s|
  {
    if s == "" {
      assert (s + [c] + t)[1..] == t;
    } else {
      assert (s + [c] + t)[1..] == s[1..] + [c] + t;
      EscapedMeans(s[1..], c, t);
    }
  }
}
