/** Reading XML text back, with the codes of bytes that were hex-escaped. */
module XmlReading {
  import opened XmlEncode
  import opened XmlMarkup

  /** The value of a digit; -1 if it is none. */
  function DigitValue(d: byte): (v: int)
    ensures -1 <= v < 16
  {
    if '0' <= d <= '9' then d as int - '0' as int
    else if 'A' <= d <= 'F' then d as int - 'A' as int + 10
    else -1
  }

  /** A backslash, an 'x' and two digits stand at the front of `s`. */
  predicate Coded(s: Bytes) {
    |s| >= 4 && s[0] == '\\' && s[1] == 'x' && DigitValue(s[2]) >= 0 && DigitValue(s[3]) >= 0
  }

  function Decoded(s: Bytes): byte
    requires Coded(s)
  {
    (DigitValue(s[2]) * 16 + DigitValue(s[3])) as char
  }

  /** Reads entities and codes back. */
  function Read(s: Bytes): Bytes
    decreases |s|
  {
    if s == [] then []
    else if "&lt;" <= s then "<" + Read(s[4..])
    else if "&amp;" <= s then "&" + Read(s[5..])
    else if "&gt;" <= s then ">" + Read(s[4..])
    else if "&quot;" <= s then "\"" + Read(s[6..])
    else if Coded(s) then [Decoded(s)] + Read(s[4..])
    else [s[0]] + Read(s[1..])
  }

  /** A byte that is not allowed in XML, written or not. */
  predicate Control(c: byte) {
    c as int <= 0x08 || 0x0E <= c as int <= 0x1F || c as int == 0x7F
  }

  lemma DigitReads(n: int)
    requires 0 <= n < 16
    ensures DigitValue(Digit(n)) == n
  {
    assert "0123456789ABCDEF"[..10] == "0123456789" && "0123456789ABCDEF"[10..] == "ABCDEF";
  }

  lemma HexEscapeReads(c: byte)
    ensures var e := HexEscape(c);
      Coded(e) && Decoded(e) == c
  {
    DigitReads(c as int / 16);
    DigitReads(c as int % 16);
    hide Digit;
  }

  /** What is written for the byte at `i`, if it is an ASCII byte: an entity, its code, or the byte itself. */
  lemma EncodesByte(s: Bytes, i: nat, forWhat: ForWhat)
    requires i < |s| && s[i] as int <= 0x7F
    ensures var rest := EncodeFrom(s, i + 1, forWhat);
      var out := EncodeFrom(s, i, forWhat);
      && (s[i] == '<' ==> out == "&lt;" + rest)
      && (s[i] == '&' ==> out == "&amp;" + rest)
      && (s[i] == '>' ==> out == (if i > 2 && s[i - 2] == s[i - 1] == ']' then "&gt;" else ">") + rest)
      && (s[i] == '"' ==> out == (if forWhat == ForAttributes then "&quot;" else "\"") + rest)
      && (Control(s[i]) ==> Coded(out) && Decoded(out) == s[i] && out[4..] == rest)
      && (!Control(s[i]) && s[i] !in "<&>\"" ==> out == [s[i]] + rest)
  {
    CodeInFront(s[i], EncodeFrom(s, i + 1, forWhat));
    hide HexEscape, Accepted, Coded, Decoded;
  }

  lemma CodeInFront(c: byte, rest: Bytes)
    ensures var out := HexEscape(c) + rest;
      Coded(out) && Decoded(out) == c && out[4..] == rest
  {
    HexEscapeReads(c);
    hide HexEscape;
  }

  /** What is written for a byte above 0x7F: its code, or the `n` bytes of the sequence it starts. */
  lemma EncodesHigh(s: Bytes, i: nat, forWhat: ForWhat) returns (n: nat)
    requires i < |s| && s[i] as int > 0x7F
    ensures var out := EncodeFrom(s, i, forWhat);
      && (n == 0 ==>
            Coded(out) && Decoded(out) == s[i] && out[4..] == EncodeFrom(s, i + 1, forWhat))
      && (n > 0 ==>
            && i + n <= |s| && out == s[i..i + n] + EncodeFrom(s, i + n, forWhat)
            && forall k :: i <= k < i + n ==> s[k] as int > 0x7F)
  {
    hide EncodeFrom, StepAt, Accepted, HexEscape;
    HighStep(s, i, forWhat);
    StepIsAccepted(s, i, forWhat);
    var r := StepAt(s, i, forWhat);
    if r.length > 1 {
      n := r.length;
      AcceptedIsHigh(r.out, n);
      forall k | i <= k < i + n ensures s[k] as int > 0x7F {
        assert s[k] == r.out[k - i];
      }
    } else {
      n := 0;
      CodeInFront(s[i], EncodeFrom(s, i + 1, forWhat));
    }
  }

  lemma HighStep(s: Bytes, i: nat, forWhat: ForWhat)
    requires i < |s| && s[i] as int > 0x7F
    ensures var r := StepAt(s, i, forWhat);
      && EncodeFrom(s, i, forWhat) == r.out + EncodeFrom(s, i + r.length, forWhat)
      && (r.length == 1 ==> r.out == HexEscape(s[i]))
  {
    hide Accepted, HexEscape;
  }

  /** No byte is one that XML does not allow. */
  ghost predicate AllAllowed(s: Bytes) {
    forall k :: 0 <= k < |s| ==> !Control(s[k])
  }

  lemma AllowedJoin(a: Bytes, rest: Bytes)
    requires AllAllowed(a) && AllAllowed(rest)
    ensures AllAllowed(a + rest)
  {
    hide Control;
  }

  lemma AllowedCode(s: Bytes)
    requires Coded(s) && |s| == 4
    ensures AllAllowed(s)
  {
  }

  lemma EntitiesAllowed()
    ensures AllAllowed("&lt;") && AllAllowed("&amp;") && AllAllowed("&gt;") && AllAllowed("&quot;")
    ensures AllAllowed(">") && AllAllowed("\"")
  {
  }

  lemma HighAllowed(s: Bytes, i: nat, j: nat)
    requires i <= j <= |s| && forall k :: i <= k < j ==> s[k] as int > 0x7F
    ensures AllAllowed(s[i..j])
  {
    forall k | 0 <= k < j - i ensures !Control(s[i..j][k]) {
      assert s[i..j][k] == s[i + k];
    }
  }

  /** What is written for the byte at `i` or the sequence that starts there. */
  lemma StepAllowed(s: Bytes, i: nat, forWhat: ForWhat) returns (front: Bytes, n: nat)
    requires i < |s|
    ensures 0 < n <= |s| - i && AllAllowed(front)
    ensures EncodeFrom(s, i, forWhat) == front + EncodeFrom(s, i + n, forWhat)
  {
    hide EncodeFrom, AllAllowed;
    var out := EncodeFrom(s, i, forWhat);
    n := 1;
    if s[i] as int > 0x7F {
      n := EncodesHigh(s, i, forWhat);
      if n > 0 {
        HighAllowed(s, i, i + n);
        front := s[i..i + n];
        return;
      }
      n := 1;
    } else {
      EncodesByte(s, i, forWhat);
    }
    if Coded(out) && out[4..] == EncodeFrom(s, i + 1, forWhat) {
      AllowedCode(out[..4]);
      front := out[..4];
    } else {
      hide Coded;
      EntitiesAllowed();
      OneAllowed(s[i]);
      front := if s[i] == '<' then "&lt;" else if s[i] == '&' then "&amp;"
               else if s[i] == '>' && out == "&gt;" + EncodeFrom(s, i + 1, forWhat) then "&gt;"
               else if s[i] == '"' && forWhat == ForAttributes then "&quot;" else [s[i]];
    }
  }

  /** Nothing that XML does not allow is written. */
  lemma {:induction false} OutputAllowed(s: Bytes, i: nat, forWhat: ForWhat)
    requires i <= |s|
    ensures AllAllowed(EncodeFrom(s, i, forWhat))
    decreases |s| - i
  {
    if i < |s| {
      hide EncodeFrom, AllAllowed;
      var front, n := StepAllowed(s, i, forWhat);
      OutputAllowed(s, i + n, forWhat);
      AllowedJoin(front, EncodeFrom(s, i + n, forWhat));
    }
  }

  lemma OneAllowed(c: byte)
    ensures Control(c) || AllAllowed([c])
  {
  }

  /** Bytes that start neither an entity nor a code. */
  lemma {:induction false} ReadRaw(a: Bytes, rest: Bytes)
    requires forall k :: 0 <= k < |a| ==> a[k] != '&' && a[k] != '\\'
    ensures Read(a + rest) == a + Read(rest)
    decreases |a|
  {
    if a == [] {
      assert a + rest == rest;
    } else {
      assert (a + rest)[1..] == a[1..] + rest;
      assert (a + rest)[0] == a[0];
      ReadRaw(a[1..], rest);
      assert [a[0]] + (a[1..] + Read(rest)) == a + Read(rest);
    }
  }

  lemma ReadEntity(rest: Bytes)
    ensures Read("&lt;" + rest) == "<" + Read(rest)
    ensures Read("&amp;" + rest) == "&" + Read(rest)
    ensures Read("&gt;" + rest) == ">" + Read(rest)
    ensures Read("&quot;" + rest) == "\"" + Read(rest)
  {
    assert ("&lt;" + rest)[4..] == rest;
    var amp := "&amp;" + rest;
    assert amp[5..] == rest && amp[1] == 'a' && "&lt;"[1] == 'l';
    var gt := "&gt;" + rest;
    assert gt[4..] == rest && gt[1] == 'g' && "&amp;"[1] == 'a';
    var quot := "&quot;" + rest;
    assert quot[6..] == rest && quot[1] == 'q' && "&gt;"[1] == 'g';
  }

  lemma ReadCode(s: Bytes)
    requires Coded(s)
    ensures Read(s) == [Decoded(s)] + Read(s[4..])
  {
    assert s[0] == '\\' && "&"[0] == '&';
    assert !("&lt;" <= s) && !("&amp;" <= s) && !("&gt;" <= s) && !("&quot;" <= s);
  }

  lemma ReadBackslash(s: Bytes)
    requires s != [] && s[0] == '\\' && !Coded(s)
    ensures Read(s) == ['\\'] + Read(s[1..])
  {
    assert !("&lt;" <= s) && !("&amp;" <= s) && !("&gt;" <= s) && !("&quot;" <= s);
  }

  /** Reading one byte back, unless it is a backslash, or the bytes of a sequence. */
  lemma ReadsStep(s: Bytes, i: nat, forWhat: ForWhat) returns (n: nat)
    requires i < |s| && s[i] != '\\'
    ensures 0 < n <= |s| - i && (n > 1 ==> s[i] as int > 0x7F)
    ensures forall k :: i <= k < i + n ==> s[k] != '\\'
    ensures Read(EncodeFrom(s, i, forWhat)) == s[i..i + n] + Read(EncodeFrom(s, i + n, forWhat))
  {
    hide Read, EncodeFrom;
    var out := EncodeFrom(s, i, forWhat);
    if s[i] as int <= 0x7F {
      n := 1;
      var rest := EncodeFrom(s, i + 1, forWhat);
      EncodesByte(s, i, forWhat);
      ReadEntity(rest);
      if Control(s[i]) {
        ReadCode(out);
      }
      assert s[i..i + 1] == [s[i]];
      if s[i] != '&' {
        ReadRaw([s[i]], rest);
      }
    } else {
      n := EncodesHigh(s, i, forWhat);
      if n == 0 {
        n := 1;
        ReadCode(out);
        assert s[i..i + 1] == [s[i]];
      } else {
        ReadRaw(s[i..i + n], EncodeFrom(s, i + n, forWhat));
      }
    }
  }

  /** A code stands somewhere in the text itself. */
  ghost predicate LooksCoded(s: Bytes, i: nat)
    requires i <= |s|
  {
    exists k :: i <= k < |s| && Coded(s[k..])
  }

  /** What is written for the bytes of a code is these bytes, and nothing else looks like them. */
  lemma CodeWritten(s: Bytes, i: nat, forWhat: ForWhat)
    requires i < |s| && s[i] == '\\'
    ensures Coded(EncodeFrom(s, i, forWhat)) <==> Coded(s[i..])
    ensures Coded(s[i..]) ==> i + 4 <= |s| && EncodeFrom(s, i, forWhat)[4..] == EncodeFrom(s, i + 4, forWhat)
  {
    hide EncodeFrom;
    EncodesByte(s, i, forWhat);
    FirstByte(s, i + 1, forWhat);
    if i + 1 < |s| && s[i + 1] == 'x' {
      FirstByte(s, i + 2, forWhat);
      if i + 2 < |s| && DigitValue(s[i + 2]) >= 0 {
        FirstByte(s, i + 3, forWhat);
      }
    }
  }

  /** An 'x' or a digit is written first exactly when it stands there, and as itself. */
  lemma FirstByte(s: Bytes, i: nat, forWhat: ForWhat)
    requires i <= |s|
    ensures var out := EncodeFrom(s, i, forWhat);
      && (i < |s| && (s[i] == 'x' || DigitValue(s[i]) >= 0) ==> out == [s[i]] + EncodeFrom(s, i + 1, forWhat))
      && (out != [] && (out[0] == 'x' || DigitValue(out[0]) >= 0) ==> i < |s| && s[i] == out[0])
  {
    if i < |s| {
      hide EncodeFrom;
      if s[i] as int <= 0x7F {
        EncodesByte(s, i, forWhat);
      } else {
        var n := EncodesHigh(s, i, forWhat);
      }
    } else {
      assert EncodeFrom(s, i, forWhat) == [];
    }
  }

  /** Reading back gives the text if and only if no code stands in the text itself, as it cannot when it holds no
      backslash. */
  lemma {:induction false} ReadsBackIff(s: Bytes, i: nat, forWhat: ForWhat)
    requires i <= |s|
    ensures |Read(EncodeFrom(s, i, forWhat))| <= |s| - i
    ensures Read(EncodeFrom(s, i, forWhat)) == s[i..] <==> !LooksCoded(s, i)
    decreases |s| - i
  {
    hide Read, EncodeFrom, Coded, LooksCoded;
    if i == |s| {
      NothingToRead(s, forWhat);
    } else if s[i] != '\\' {
      var n := ReadsStep(s, i, forWhat);
      ReadsBackIff(s, i + n, forWhat);
      ReadsOn(s, i, i + n, Read(EncodeFrom(s, i + n, forWhat)));
    } else {
      CodeWritten(s, i, forWhat);
      var out := EncodeFrom(s, i, forWhat);
      if Coded(s[i..]) {
        ReadCode(out);
        ReadsBackIff(s, i + 4, forWhat);
        LooksNow(s, i);
      } else {
        EncodesByte(s, i, forWhat);
        ReadBackslash(out);
        ReadsBackIff(s, i + 1, forWhat);
        ReadsOn(s, i, i + 1, Read(EncodeFrom(s, i + 1, forWhat)));
      }
    }
  }

  lemma NothingToRead(s: Bytes, forWhat: ForWhat)
    ensures EncodeFrom(s, |s|, forWhat) == [] && Read([]) == s[|s|..] && !LooksCoded(s, |s|)
  {
  }

  lemma ReadsOn(s: Bytes, i: nat, j: nat, rest: Bytes)
    requires i <= j <= |s| && forall k :: i <= k < j ==> s[k] != '\\' || !Coded(s[k..])
    requires |rest| <= |s| - j && (rest == s[j..] <==> !LooksCoded(s, j))
    ensures |s[i..j] + rest| <= |s| - i
    ensures s[i..j] + rest == s[i..] <==> !LooksCoded(s, i)
    ensures i + 1 == j ==> s[i..j] == [s[i]]
  {
    hide Coded, LooksCoded;
    SameBehind(s, i, j, rest);
    LooksLater(s, i, j);
  }

  lemma SameBehind(s: Bytes, i: nat, j: nat, rest: Bytes)
    requires i <= j <= |s|
    ensures s[i..j] + rest == s[i..] <==> rest == s[j..]
  {
    assert s[i..] == s[i..j] + s[j..];
    if s[i..j] + rest == s[i..] {
      assert rest == (s[i..j] + rest)[j - i..] == s[i..][j - i..] == s[j..];
    }
  }

  lemma LooksLater(s: Bytes, i: nat, j: nat)
    requires i <= j <= |s| && forall k :: i <= k < j ==> s[k] != '\\' || !Coded(s[k..])
    ensures LooksCoded(s, i) <==> LooksCoded(s, j)
  {
    forall k | i <= k < j ensures !Coded(s[k..]) {
      assert s[k..][0] == s[k];
    }
  }

  lemma LooksNow(s: Bytes, i: nat)
    requires i < |s| && Coded(s[i..])
    ensures LooksCoded(s, i)
  {
  }

  /** In particular any text without a backslash is read back, control characters and all. */
  lemma ReadsAllBack(s: Bytes, forWhat: ForWhat)
    requires '\\' !in s
    ensures Read(EncodeFrom(s, 0, forWhat)) == s
  {
    ReadsBackIff(s, 0, forWhat);
    assert s[0..] == s;
    forall k | 0 <= k < |s| ensures !Coded(s[k..]) {
      assert s[k..][0] == s[k];
    }
  }
}
