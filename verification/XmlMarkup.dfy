/** What escaping means for the reader of the XML: no markup is left, and the text can be read back. */
module XmlMarkup {
  import opened XmlEncode

  /** Whether one of the four entities stands at the front of `s`. */
  predicate Entity(s: Bytes) {
    "&lt;" <= s || "&amp;" <= s || "&gt;" <= s || "&quot;" <= s
  }

  /** No raw '<', every '&' starts an entity, and in an attribute no raw '"'. */
  ghost predicate NoMarkup(s: Bytes, forWhat: ForWhat) {
    forall k :: 0 <= k < |s| ==>
      s[k] != '<' && (s[k] == '&' ==> Entity(s[k..])) && (forWhat == ForAttributes ==> s[k] != '"')
  }

  /** What a step writes: an entity, or nothing that means markup. */
  lemma StepNoMarkup(s: Bytes, i: nat, forWhat: ForWhat)
    requires i < |s|
    ensures var out := StepAt(s, i, forWhat).out;
      || (out == "&lt;" && s[i] == '<') || (out == "&amp;" && s[i] == '&') || (out == "&gt;" && s[i] == '>')
          || (out == "&quot;" && s[i] == '"')
      || (forall k :: 0 <= k < |out| ==> out[k] != '<' && out[k] != '&' && (forWhat == ForAttributes ==> out[k] != '"'))
  {
    hide Accepted;
    StepIsAccepted(s, i, forWhat);
    var r := StepAt(s, i, forWhat);
    if r.length > 1 {
      assert Accepted(r.out, r.length);
      AcceptedIsHigh(r.out, r.length);
    }
  }

  lemma AcceptedIsHigh(s: Bytes, n: nat)
    requires Accepted(s, n) && |s| == n
    ensures forall k :: 0 <= k < n ==> Code(s[k]) >= 0x80
  {
    forall k | 0 <= k < n ensures Code(s[k]) >= 0x80 {
      if k > 0 {
        assert IsContinuation(s[k]);
      }
    }
  }

  lemma FrontNoMarkup(a: Bytes, rest: Bytes, forWhat: ForWhat)
    requires NoMarkup(rest, forWhat)
    requires a in {"&lt;", "&amp;", "&gt;", "&quot;"}
             || forall k :: 0 <= k < |a| ==> a[k] != '<' && a[k] != '&' && (forWhat == ForAttributes ==> a[k] != '"')
    ensures NoMarkup(a + rest, forWhat)
  {
    var s := a + rest;
    forall k | 0 <= k < |s|
      ensures s[k] != '<' && (s[k] == '&' ==> Entity(s[k..])) && (forWhat == ForAttributes ==> s[k] != '"')
    {
      if k >= |a| {
        assert s[k] == rest[k - |a|] && s[k..] == rest[k - |a|..];
      } else if a[k] == '&' {
        assert k == 0 && s[k..] == a + rest;
      }
    }
  }

  /** Nothing written can be taken for markup. */
  lemma {:induction false} OutputNoMarkup(s: Bytes, i: nat, forWhat: ForWhat)
    requires i <= |s|
    ensures NoMarkup(EncodeFrom(s, i, forWhat), forWhat)
    decreases |s| - i
  {
    hide StepAt, NoMarkup;
    if i < |s| {
      var r := StepAt(s, i, forWhat);
      OutputNoMarkup(s, i + r.length, forWhat);
      StepNoMarkup(s, i, forWhat);
      FrontNoMarkup(r.out, EncodeFrom(s, i + r.length, forWhat), forWhat);
    } else {
      EmptyNoMarkup(forWhat);
    }
  }

  lemma EmptyNoMarkup(forWhat: ForWhat)
    ensures NoMarkup([], forWhat)
  {
  }

  /** The number of brackets just read, as far as it matters for "]]>". */
  function Brackets(n: nat, c: byte): nat {
    if c == ']' then (if n < 2 then n + 1 else 2) else 0
  }

  /** Whether "]]>" is completed in `s`, after `n` brackets. */
  predicate Closes(n: nat, s: Bytes)
    decreases |s|
  {
    s != [] && ((n >= 2 && s[0] == '>') || Closes(Brackets(n, s[0]), s[1..]))
  }

  predicate ClosesAt(s: Bytes, k: int) {
    0 <= k <= |s| - 3 && s[k] == ']' && s[k + 1] == ']' && s[k + 2] == '>'
  }

  /** The scan finds "]]>" exactly when it stands somewhere. */
  lemma {:induction false} ClosesSomewhere(n: nat, s: Bytes)
    requires n <= 2
    ensures Closes(n, s) <==>
              (exists k :: ClosesAt(s, k)) || (n >= 2 && |s| > 0 && s[0] == '>')
                  || (n >= 1 && |s| > 1 && s[0] == ']' && s[1] == '>')
    decreases |s|
  {
    if s != [] {
      var rest := s[1..];
      ClosesSomewhere(Brackets(n, s[0]), rest);
      if k :| ClosesAt(rest, k) {
        assert ClosesAt(s, k + 1);
      }
      if k :| ClosesAt(s, k) {
        if k > 0 {
          assert ClosesAt(rest, k - 1);
        } else {
          assert rest[0] == ']' && rest[1] == '>';
        }
      }
      if Brackets(n, s[0]) >= 1 && |rest| > 1 && rest[0] == ']' && rest[1] == '>' {
        assert ClosesAt(s, 0);
      }
    }
  }

  /** The brackets right before position `i`. */
  function Trailing(s: Bytes, i: nat): (n: nat)
    requires i <= |s|
    ensures n <= 2
    ensures n == (if i == 0 || s[i - 1] != ']' then 0 else if i == 1 || s[i - 2] != ']' then 1 else 2)
  {
    if i == 0 then 0 else Brackets(Trailing(s, i - 1), s[i - 1])
  }

  lemma {:induction false} ClosesBehind(n: nat, a: Bytes, rest: Bytes)
    requires n <= 2 && forall k :: 0 <= k < |a| ==> a[k] != '>' && a[k] != ']'
    ensures Closes(n, a + rest) == Closes(if a == [] then n else 0, rest)
    decreases |a|
  {
    if a == [] {
      assert a + rest == rest;
    } else {
      assert (a + rest)[1..] == a[1..] + rest;
      ClosesBehind(0, a[1..], rest);
    }
  }

  /** A step writes a raw bracket for a bracket, a raw '>' for a '>' behind fewer than two brackets or as the
      third byte of the text, and otherwise neither. */
  lemma StepCloses(s: Bytes, i: nat, forWhat: ForWhat)
    requires i < |s|
    ensures var r := StepAt(s, i, forWhat);
      var n := Trailing(s, i);
      && r.out != []
      && (r.out == ">" ==> s[i] == '>' && (n < 2 || i == 2))
      && (s[i] == '>' && i == 2 ==> r.out == ">")
      && (s[i] == ']' <==> r.out == "]")
      && (s[i] == ']' ==> r.length == 1)
      && (r.out == ">" ==> r.length == 1)
      && (r.out != ">" && r.out != "]" ==> forall k :: 0 <= k < |r.out| ==> r.out[k] != '>' && r.out[k] != ']')
      && (r.length > 1 ==> s[i + r.length - 1] != ']')
  {
    hide Accepted;
    StepIsAccepted(s, i, forWhat);
    var r := StepAt(s, i, forWhat);
    if r.length > 1 {
      assert Accepted(r.out, r.length);
      AcceptedIsHigh(r.out, r.length);
      assert s[i + r.length - 1] == r.out[r.length - 1];
    }
  }

  lemma {:induction false} OutputCloses(s: Bytes, i: nat, forWhat: ForWhat)
    requires i <= |s|
    ensures Closes(Trailing(s, i), EncodeFrom(s, i, forWhat)) <==> i <= 2 && ClosesAt(s, 0)
    decreases |s| - i
  {
    hide StepAt, Trailing;
    if i < |s| {
      var r := StepAt(s, i, forWhat);
      var rest := EncodeFrom(s, i + r.length, forWhat);
      var n := Trailing(s, i);
      StepCloses(s, i, forWhat);
      OutputCloses(s, i + r.length, forWhat);
      if r.out == ">" || r.out == "]" {
        assert (r.out + rest)[0] == r.out[0] && (r.out + rest)[1..] == rest;
      } else {
        ClosesBehind(n, r.out, rest);
      }
    }
  }

  /** "]]>" is written if and only if the text starts with it. */
  lemma OutputClosesIff(s: Bytes, forWhat: ForWhat)
    ensures (exists k :: ClosesAt(EncodeFrom(s, 0, forWhat), k)) <==> ClosesAt(s, 0)
  {
    ClosesSomewhere(0, EncodeFrom(s, 0, forWhat));
    OutputCloses(s, 0, forWhat);
  }

  /** Such a text is "]]>" itself. */
  lemma ClosingCopied(forWhat: ForWhat)
    ensures ClosesAt(EncodeFrom("]]>", 0, forWhat), 0)
  {
    assert StepAt("]]>", 0, forWhat) == Step("]", 1) && StepAt("]]>", 1, forWhat) == Step("]", 1)
        && StepAt("]]>", 2, forWhat) == Step(">", 1);
    assert EncodeFrom("]]>", 3, forWhat) == "";
    assert EncodeFrom("]]>", 2, forWhat) == ">" + EncodeFrom("]]>", 3, forWhat);
    assert EncodeFrom("]]>", 1, forWhat) == "]" + EncodeFrom("]]>", 2, forWhat);
    assert EncodeFrom("]]>", 0, forWhat) == "]" + EncodeFrom("]]>", 1, forWhat);
  }

  /** Reads the entities back. */
  function Unescape(s: Bytes): Bytes
    decreases |s|
  {
    if s == [] then []
    else if "&lt;" <= s then "<" + Unescape(s[4..])
    else if "&amp;" <= s then "&" + Unescape(s[5..])
    else if "&gt;" <= s then ">" + Unescape(s[4..])
    else if "&quot;" <= s then "\"" + Unescape(s[6..])
    else [s[0]] + Unescape(s[1..])
  }

  lemma {:induction false} UnescapeRaw(a: Bytes, rest: Bytes)
    requires forall k :: 0 <= k < |a| ==> a[k] != '&'
    ensures Unescape(a + rest) == a + Unescape(rest)
    decreases |a|
  {
    if a == [] {
      assert a + rest == rest;
    } else {
      assert (a + rest)[1..] == a[1..] + rest;
      assert (a + rest)[0] != '&';
      UnescapeRaw(a[1..], rest);
      assert [a[0]] + (a[1..] + Unescape(rest)) == a + Unescape(rest);
    }
  }

  lemma UnescapeEntity(rest: Bytes)
    ensures Unescape("&lt;" + rest) == "<" + Unescape(rest)
    ensures Unescape("&amp;" + rest) == "&" + Unescape(rest)
    ensures Unescape("&gt;" + rest) == ">" + Unescape(rest)
    ensures Unescape("&quot;" + rest) == "\"" + Unescape(rest)
  {
    assert ("&lt;" + rest)[4..] == rest;
    var amp := "&amp;" + rest;
    assert amp[5..] == rest && amp[1] == 'a' && "&lt;"[1] == 'l';
    var gt := "&gt;" + rest;
    assert gt[4..] == rest && gt[1] == 'g' && "&amp;"[1] == 'a';
    var quot := "&quot;" + rest;
    assert quot[6..] == rest && quot[1] == 'q' && "&gt;"[1] == 'g';
  }

  /** Whether the byte at `i` is written as its code. */
  predicate IsHex(s: Bytes, i: nat, forWhat: ForWhat)
    requires i < |s|
  {
    StepAt(s, i, forWhat).out == HexEscape(s[i])
  }

  /** Whether any byte of the text from `i` on is written as its code. */
  predicate SomeHex(s: Bytes, i: nat, forWhat: ForWhat)
    requires i <= |s|
    decreases |s| - i
  {
    i < |s| && (IsHex(s, i, forWhat) || SomeHex(s, i + StepAt(s, i, forWhat).length, forWhat))
  }

  /** A step writes an entity, the code of a byte, or the bytes as they are. */
  lemma StepShape(s: Bytes, i: nat, forWhat: ForWhat)
    requires i < |s|
    ensures var r := StepAt(s, i, forWhat);
      && (IsHex(s, i, forWhat) ==> r.length == 1 && |r.out| == 4 && forall k :: 0 <= k < 4 ==> r.out[k] != '&')
      && (!IsHex(s, i, forWhat) ==>
            || (r.length == 1 && (r.out, s[i]) in {("&lt;", '<'), ("&amp;", '&'), ("&gt;", '>'), ("&quot;", '"')})
            || (r.out == s[i..i + r.length] && forall k :: 0 <= k < |r.out| ==> r.out[k] != '&'))
  {
    hide Accepted, HexEscape;
    StepNoMarkup(s, i, forWhat);
    var r := StepAt(s, i, forWhat);
    if r.length == 1 {
      assert s[i..i + 1] == [s[i]];
    } else {
      assert r.out != HexEscape(s[i]) by {
        StepIsAccepted(s, i, forWhat);
        assert r.out[0] == s[i];
      }
    }
  }

  /** What reading the entities of one step back gives: the bytes it stands for, unless they are hex-escaped. */
  lemma StepUnescape(s: Bytes, i: nat, forWhat: ForWhat, rest: Bytes)
    requires i < |s|
    ensures var r := StepAt(s, i, forWhat);
      && Unescape(r.out + rest) == (if IsHex(s, i, forWhat) then r.out else s[i..i + r.length]) + Unescape(rest)
      && (IsHex(s, i, forWhat) ==> r.length == 1 && |r.out| == 4)
  {
    hide StepAt, IsHex, Unescape;
    StepShape(s, i, forWhat);
    var r := StepAt(s, i, forWhat);
    if !IsHex(s, i, forWhat) && r.length == 1
        && (r.out, s[i]) in {("&lt;", '<'), ("&amp;", '&'), ("&gt;", '>'), ("&quot;", '"')} {
      UnescapeEntity(rest);
      assert s[i..i + 1] == [s[i]];
    } else {
      UnescapeRaw(r.out, rest);
    }
  }

  /** Reading the entities back gives the text if and only if no byte of it was hex-escaped. */
  lemma {:induction false} ReadsBack(s: Bytes, i: nat, forWhat: ForWhat)
    requires i <= |s|
    ensures |Unescape(EncodeFrom(s, i, forWhat))| >= |s| - i
    ensures |Unescape(EncodeFrom(s, i, forWhat))| == |s| - i ==> !SomeHex(s, i, forWhat)
    ensures Unescape(EncodeFrom(s, i, forWhat)) == s[i..] <==> !SomeHex(s, i, forWhat)
    decreases |s| - i
  {
    hide StepAt, Unescape, IsHex;
    if i < |s| {
      var r := StepAt(s, i, forWhat);
      var rest := EncodeFrom(s, i + r.length, forWhat);
      StepUnescape(s, i, forWhat, rest);
      ReadsBack(s, i + r.length, forWhat);
      assert s[i..] == s[i..i + r.length] + s[i + r.length..];
    } else {
      UnescapeNothing();
    }
  }

  lemma UnescapeNothing()
    ensures Unescape([]) == []
  {
  }
}
