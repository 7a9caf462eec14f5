/** Writing text into XML: escaping of markup, of control characters and of bytes that are no UTF-8. */
module XmlEncode {

  /** A byte, written as the character with its code. */
  type byte = c: char | c as int < 256 witness 'x'

  type Bytes = seq<byte>

  function Code(c: byte): (n: int)
    ensures 0 <= n < 256
  {
    c as int
  }

  datatype ForWhat = ForTextNodes | ForAttributes

  function Digit(n: int): (d: byte)
    requires 0 <= n < 16
    ensures '0' <= d <= '9' || 'A' <= d <= 'F'
  {
    "0123456789ABCDEF"[n]
  }

  function HexEscape(c: byte): (r: Bytes)
    ensures |r| == 4 && forall k :: 0 <= k < 4 ==> Code(r[k]) < 0x80 && r[k] !in "<&>\"]"
  {
    ['\\', 'x', Digit(Code(c) / 16), Digit(Code(c) % 16)]
  }

  /** The length that a lead byte announces; 0 for any other byte. */
  function SequenceLength(c: byte): (n: nat)
    ensures n == 0 || 2 <= n <= 4
  {
    var n := Code(c);
    if 0xC0 <= n < 0xE0 then 2 else if 0xE0 <= n < 0xF0 then 3 else if 0xF0 <= n < 0xF8 then 4 else 0
  }

  /** The bits of the value that a lead byte carries. */
  function HeaderValue(c: byte): int {
    var n := Code(c);
    match SequenceLength(c)
    case 2 => n % 32
    case 3 => n % 16
    case _ => n % 8
  }

  predicate IsContinuation(c: byte) {
    0x80 <= Code(c) < 0xC0
  }

  /** The value of the first `n` bytes of a sequence, continuation or not. */
  function ValueOf(s: Bytes, n: nat): (v: int)
    requires 1 <= n <= |s|
  {
    if n == 1 then HeaderValue(s[0]) else ValueOf(s, n - 1) * 64 + Code(s[n - 1]) % 64
  }

  /** A sequence of `n` bytes that is written as it is: complete, below 0x110000 and in the shortest form,
      except that 0x800 may also take four bytes. */
  predicate Accepted(s: Bytes, n: nat) {
    && 2 <= n <= |s| && SequenceLength(s[0]) == n
    && (forall i :: 1 <= i < n ==> IsContinuation(s[i]))
    && var v := ValueOf(s, n);
       0x80 <= v < 0x110000 && (v < 0x800 ==> n == 2) && (0x800 < v < 0x10000 ==> n <= 3)
  }

  /** The bytes written for the input from `i` on, up to the next input byte looked at, and how many input
      bytes they stand for. */
  datatype Step = Step(out: Bytes, length: nat)

  function StepAt(s: Bytes, i: nat, forWhat: ForWhat): (r: Step)
    requires i < |s|
    ensures 0 < r.length <= |s| - i
  {
    var c := s[i];
    var n := SequenceLength(c);
    if c == '<' then Step("&lt;", 1)
    else if c == '&' then Step("&amp;", 1)
    else if c == '>' then Step(if i > 2 && s[i - 1] == ']' && s[i - 2] == ']' then "&gt;" else [c], 1)
    else if c == '"' then Step(if forWhat == ForAttributes then "&quot;" else [c], 1)
    else if Code(c) < 0x09 || 0x0D < Code(c) < 0x20 || Code(c) == 0x7F then Step(HexEscape(c), 1)
    else if Code(c) < 0x7F then Step([c], 1)
    else if n > 0 && Accepted(s[i..], n) then Step(s[i..i + n], n)
    else Step(HexEscape(c), 1)
  }

  function EncodeFrom(s: Bytes, i: nat, forWhat: ForWhat): Bytes
    requires i <= |s|
    decreases |s| - i
  {
    if i == |s| then [] else StepAt(s, i, forWhat).out + EncodeFrom(s, i + StepAt(s, i, forWhat).length, forWhat)
  }

  /** Writes the text `s`. */
  method EncodeTo(s: Bytes, forWhat: ForWhat) returns (os: Bytes)
    ensures os == EncodeFrom(s, 0, forWhat)
  {
    hide StepAt;
    os := [];
    var idx := 0;
    while idx < |s|
      invariant idx <= |s| && os + EncodeFrom(s, idx, forWhat) == EncodeFrom(s, 0, forWhat)
    {
      var out, length := EncodeChar(s, idx, forWhat);
      assert os + (out + EncodeFrom(s, idx + length, forWhat)) == (os + out) + EncodeFrom(s, idx + length, forWhat);
      os := os + out;
      idx := idx + length;
    }
  }

  /** What is written for the byte at `idx`, or for the multi-byte sequence that starts there. */
  method EncodeChar(s: Bytes, idx: nat, forWhat: ForWhat) returns (out: Bytes, length: nat)
    requires idx < |s|
    ensures Step(out, length) == StepAt(s, idx, forWhat)
  {
    hide Accepted;
    length := 1;
    var c := s[idx];
    if c == '<' {
      out := "&lt;";
    } else if c == '&' {
      out := "&amp;";
    } else if c == '>' {
      if idx > 2 && s[idx - 1] == ']' && s[idx - 2] == ']' {
        out := "&gt;";
      } else {
        out := [c];
      }
    } else if c == '"' {
      if forWhat == ForAttributes {
        out := "&quot;";
      } else {
        out := [c];
      }
    } else if Code(c) < 0x09 || 0x0D < Code(c) < 0x20 || Code(c) == 0x7F {
      out := HexEscape(c);
    } else if Code(c) < 0x7F {
      out := [c];
    } else {
      out := CopySequence(s, idx);
      if out == [] {
        out := HexEscape(c);
      } else {
        length := |out|;
      }
    }
  }

  /** The multi-byte sequence at `idx`, if it may be copied. */
  method CopySequence(s: Bytes, idx: nat) returns (copied: Bytes)
    requires idx < |s| && Code(s[idx]) >= 0x80
    ensures var n := SequenceLength(s[idx]);
      copied == if n > 0 && Accepted(s[idx..], n) then s[idx..idx + n] else []
  {
    var c := s[idx];
    if Code(c) < 0xC0 || Code(c) >= 0xF8 { return []; }
    var encBytes := SequenceLength(c);
    if idx + encBytes - 1 >= |s| { return []; }
    var valid := true;
    var value := HeaderValue(c);
    var n := 1;
    while n < encBytes
      invariant 1 <= n <= encBytes
      invariant valid <==> forall i :: 1 <= i < n ==> IsContinuation(s[idx..][i])
      invariant value == ValueOf(s[idx..], n)
    {
      var nc := s[idx + n];
      valid := valid && IsContinuation(nc);
      value := value * 64 + Code(nc) % 64;
      n := n + 1;
    }
    if !valid || value < 0x80 || (0x80 <= value < 0x800 && encBytes > 2) || (0x800 < value < 0x10000 && encBytes > 3)
        || value >= 0x110000 {
      return [];
    }
    copied := [];
    n := 0;
    while n < encBytes
      invariant n <= encBytes && copied == s[idx..idx + n]
    {
      copied := copied + [s[idx + n]];
      n := n + 1;
    }
  }

  /** Section 3 of RFC 3629: one character at the front of `s`, of `n` bytes. */
  predicate Utf8Char(s: Bytes, n: nat)
  {
    && 1 <= n <= |s|
    && if n == 1 then Code(s[0]) <= 0x7F
       else if n == 2 then 0xC2 <= Code(s[0]) <= 0xDF && Tail(s[1])
       else if n == 3 then
         && (|| (Code(s[0]) == 0xE0 && 0xA0 <= Code(s[1]) <= 0xBF)
             || (0xE1 <= Code(s[0]) <= 0xEC && Tail(s[1]))
             || (Code(s[0]) == 0xED && 0x80 <= Code(s[1]) <= 0x9F)
             || (0xEE <= Code(s[0]) <= 0xEF && Tail(s[1])))
         && Tail(s[2])
       else
         && n == 4
         && (|| (Code(s[0]) == 0xF0 && 0x90 <= Code(s[1]) <= 0xBF)
             || (0xF1 <= Code(s[0]) <= 0xF3 && Tail(s[1]))
             || (Code(s[0]) == 0xF4 && 0x80 <= Code(s[1]) <= 0x8F))
         && Tail(s[2]) && Tail(s[3])
  }

  predicate Tail(c: byte) {
    0x80 <= Code(c) <= 0xBF
  }

  /** A text of such characters. */
  predicate Utf8(s: Bytes)
    decreases |s|
  {
    s == [] || exists n :: 1 <= n <= 4 && n <= |s| && Utf8Char(s, n) && Utf8(s[n..])
  }

  lemma Utf8CharAccepted(s: Bytes, n: nat)
    requires Utf8Char(s, n) && n >= 2
    ensures Accepted(s, n) && SequenceLength(s[0]) == n
  {
    AcceptedIff(s, n);
  }

  /** Every byte of `s` above 0x7F lies in a sequence that is written as it is. */
  predicate AllAccepted(s: Bytes)
    decreases |s|
  {
    if s == [] then true
    else if Code(s[0]) < 0x80 then AllAccepted(s[1..])
    else
      var n := SequenceLength(s[0]);
      n > 0 && Accepted(s, n) && AllAccepted(s[n..])
  }

  lemma {:induction false} Utf8AllAccepted(s: Bytes)
    requires Utf8(s)
    ensures AllAccepted(s)
    decreases |s|
  {
    if s != [] {
      var n :| 1 <= n <= 4 && n <= |s| && Utf8Char(s, n) && Utf8(s[n..]);
      if n > 1 {
        Utf8CharAccepted(s, n);
      }
      Utf8AllAccepted(s[n..]);
    }
  }

  lemma AcceptedPrefix(s: Bytes, t: Bytes, n: nat)
    requires 2 <= n <= |s| && n <= |t| && s[..n] == t[..n] && Accepted(s, n)
    ensures Accepted(t, n)
  {
    assert forall i :: 0 <= i < n ==> s[i] == s[..n][i] == t[..n][i] == t[i];
    SameValue(s, t, n);
  }

  lemma {:induction false} SameValue(s: Bytes, t: Bytes, n: nat)
    requires 1 <= n <= |s| && n <= |t| && forall i :: 0 <= i < n ==> s[i] == t[i]
    ensures ValueOf(s, n) == ValueOf(t, n)
    decreases n
  {
    if n > 1 {
      SameValue(s, t, n - 1);
    }
  }

  lemma {:induction false} AsciiAccepted(a: Bytes, rest: Bytes)
    requires AllAccepted(rest) && forall i :: 0 <= i < |a| ==> Code(a[i]) < 0x80
    ensures AllAccepted(a + rest)
    decreases |a|
  {
    if a == [] {
      assert a + rest == rest;
    } else {
      assert (a + rest)[1..] == a[1..] + rest;
      AsciiAccepted(a[1..], rest);
    }
  }

  /** What one step writes is an accepted sequence, or ASCII. */
  lemma StepIsAccepted(s: Bytes, i: nat, forWhat: ForWhat)
    requires i < |s|
    ensures var r := StepAt(s, i, forWhat);
      if r.length == 1 then forall k :: 0 <= k < |r.out| ==> Code(r.out[k]) < 0x80
      else
        r.out == s[i..i + r.length] && Accepted(r.out, r.length)
        && SequenceLength(s[i]) == r.length && Code(s[i]) >= 0x80
  {
    hide Accepted, HexEscape, Digit;
    var r := StepAt(s, i, forWhat);
    if r.length > 1 {
      assert s[i..][..r.length] == r.out[..r.length];
      AcceptedPrefix(s[i..], r.out, r.length);
    }
  }

  lemma AcceptedFront(a: Bytes, rest: Bytes)
    requires |a| >= 2 && Accepted(a, |a|) && Code(a[0]) >= 0x80 && AllAccepted(rest)
    ensures AllAccepted(a + rest)
  {
    var n := |a|;
    assert (a + rest)[..n] == a[..n] && (a + rest)[n..] == rest && (a + rest)[0] == a[0];
    AcceptedPrefix(a, a + rest, n);
    assert SequenceLength(a[0]) == n;
    hide Accepted;
  }

  /** For arbitrary bytes: every byte above 0x7F that is written lies in a complete sequence of a lead byte
      and its continuation bytes, in the shortest form or of value 0x800, and below 0x110000. */
  lemma {:induction false} OutputAccepted(s: Bytes, i: nat, forWhat: ForWhat)
    requires i <= |s|
    ensures AllAccepted(EncodeFrom(s, i, forWhat))
    decreases |s| - i
  {
    hide StepAt, Accepted, AllAccepted;
    if i < |s| {
      var r := StepAt(s, i, forWhat);
      var rest := EncodeFrom(s, i + r.length, forWhat);
      OutputAccepted(s, i + r.length, forWhat);
      StepIsAccepted(s, i, forWhat);
      if r.length == 1 {
        AsciiAccepted(r.out, rest);
      } else {
        AcceptedFront(r.out, rest);
      }
    } else {
      NothingAccepted(s, forWhat);
    }
  }

  /** A surrogate: three bytes with a value from 0xD800 to 0xDFFF, which is no character. */
  predicate Surrogate(s: Bytes, n: nat) {
    n == 3 && |s| >= 3 && Code(s[0]) == 0xED && 0xA0 <= Code(s[1]) <= 0xBF && Tail(s[2])
  }

  /** Value 0x800 in the overlong form of four bytes. */
  predicate Overlong(s: Bytes, n: nat) {
    n == 4 && |s| >= 4 && Code(s[0]) == 0xF0 && Code(s[1]) == 0x80 && Code(s[2]) == 0xA0 && Code(s[3]) == 0x80
  }

  /** What is written as it is: the characters of section 3 of RFC 3629 of more than one byte, the surrogates,
      and one overlong form. */
  lemma AcceptedIff(s: Bytes, n: nat)
    requires 2 <= n <= 4
    ensures Accepted(s, n) <==> Utf8Char(s, n) || Surrogate(s, n) || Overlong(s, n)
  {
    if n <= |s| {
      match n {
        case 2 => AcceptedTwo(s);
        case 3 => AcceptedThree(s);
        case _ => AcceptedFour(s);
      }
    }
  }

  lemma AcceptedTwo(s: Bytes)
    requires |s| >= 2
    ensures Accepted(s, 2) <==> Utf8Char(s, 2)
  {
    assert ValueOf(s, 2) == HeaderValue(s[0]) * 64 + Code(s[1]) % 64;
  }

  lemma AcceptedThree(s: Bytes)
    requires |s| >= 3
    ensures Accepted(s, 3) <==> Utf8Char(s, 3) || Surrogate(s, 3)
  {
    assert ValueOf(s, 2) == HeaderValue(s[0]) * 64 + Code(s[1]) % 64;
    assert ValueOf(s, 3) == ValueOf(s, 2) * 64 + Code(s[2]) % 64;
  }

  lemma AcceptedFour(s: Bytes)
    requires |s| >= 4
    ensures Accepted(s, 4) <==> Utf8Char(s, 4) || Overlong(s, 4)
  {
    assert ValueOf(s, 2) == HeaderValue(s[0]) * 64 + Code(s[1]) % 64;
    assert ValueOf(s, 3) == ValueOf(s, 2) * 64 + Code(s[2]) % 64;
    assert ValueOf(s, 4) == ValueOf(s, 3) * 64 + Code(s[3]) % 64;
    if SequenceLength(s[0]) == 4 && IsContinuation(s[1]) && IsContinuation(s[2]) && IsContinuation(s[3]) {
      FourBytes(Code(s[0]), Code(s[1]), Code(s[2]), Code(s[3]));
      assert forall i :: 1 <= i < 4 ==> IsContinuation(s[i]);
    }
  }

  lemma FourBytes(a: int, b: int, c: int, d: int)
    requires 0xF0 <= a <= 0xF7 && 0x80 <= b <= 0xBF && 0x80 <= c <= 0xBF && 0x80 <= d <= 0xBF
    ensures var v := ((a % 8 * 64 + b % 64) * 64 + c % 64) * 64 + d % 64;
      0x10000 <= v < 0x110000 <==> (a == 0xF0 && b >= 0x90) || 0xF1 <= a <= 0xF3 || (a == 0xF4 && b <= 0x8F)
    ensures ((a % 8 * 64 + b % 64) * 64 + c % 64) * 64 + d % 64 == 0x800
        <==> a == 0xF0 && b == 0x80 && c == 0xA0 && d == 0x80
  {
    assert a % 8 == a - 0xF0 && b % 64 == b - 0x80 && c % 64 == c - 0x80 && d % 64 == d - 0x80;
  }

  /** A text that is valid UTF-8 but for surrogates and that overlong form. */
  predicate NearlyUtf8(s: Bytes)
    decreases |s|
  {
    s == [] || exists n :: 1 <= n <= 4 && n <= |s| && (Utf8Char(s, n) || Surrogate(s, n) || Overlong(s, n))
                           && NearlyUtf8(s[n..])
  }

  lemma {:induction false} AllAcceptedIff(s: Bytes)
    ensures AllAccepted(s) <==> NearlyUtf8(s)
    decreases |s|
  {
    if s != [] {
      var m := SequenceLength(s[0]);
      forall n | 1 <= n <= 4 && n <= |s| ensures AllAccepted(s[n..]) <==> NearlyUtf8(s[n..]) {
        AllAcceptedIff(s[n..]);
      }
      forall n | 2 <= n <= 4 ensures Accepted(s, n) <==> Utf8Char(s, n) || Surrogate(s, n) || Overlong(s, n) {
        AcceptedIff(s, n);
      }
      hide ValueOf;
      if AllAccepted(s) {
        var n := if Code(s[0]) < 0x80 then 1 else m;
        assert Utf8Char(s, n) || Surrogate(s, n) || Overlong(s, n);
      }
    }
  }

  /** Two texts that are no UTF-8 and are written as they are: F0 80 A0 80, an overlong form of 0x800, and
      ED A0 80, a surrogate. */
  lemma NotUtf8ButCopied(forWhat: ForWhat)
    ensures var overlong: Bytes := [0xF0 as char, 0x80 as char, 0xA0 as char, 0x80 as char];
      EncodeFrom(overlong, 0, forWhat) == overlong && !Utf8(overlong)
    ensures var surrogate: Bytes := [0xED as char, 0xA0 as char, 0x80 as char];
      EncodeFrom(surrogate, 0, forWhat) == surrogate && !Utf8(surrogate)
  {
    var overlong: Bytes := [0xF0 as char, 0x80 as char, 0xA0 as char, 0x80 as char];
    AcceptedIff(overlong, 4);
    WholeCopied(overlong, 4, forWhat);
    var surrogate: Bytes := [0xED as char, 0xA0 as char, 0x80 as char];
    AcceptedIff(surrogate, 3);
    WholeCopied(surrogate, 3, forWhat);
  }

  lemma WholeCopied(s: Bytes, n: nat, forWhat: ForWhat)
    requires |s| == n && Accepted(s, n) && Code(s[0]) >= 0x80
    ensures EncodeFrom(s, 0, forWhat) == s
  {
    assert s[0..] == s && s[0..0 + n] == s;
    hide Accepted;
    assert EncodeFrom(s, n, forWhat) == [];
  }

  /** The text with markup and control characters escaped, and every byte above 0x7F as it is. */
  function EscapedFrom(s: Bytes, i: nat, forWhat: ForWhat): Bytes
    requires i <= |s|
    decreases |s| - i
  {
    if i == |s| then []
    else (if Code(s[i]) >= 0x80 then [s[i]] else StepAt(s, i, forWhat).out) + EscapedFrom(s, i + 1, forWhat)
  }

  lemma {:induction false} EscapedCopies(s: Bytes, i: nat, n: nat, forWhat: ForWhat)
    requires i + n <= |s| && forall k :: i <= k < i + n ==> Code(s[k]) >= 0x80
    ensures EscapedFrom(s, i, forWhat) == s[i..i + n] + EscapedFrom(s, i + n, forWhat)
    decreases n
  {
    hide StepAt;
    if n > 0 {
      EscapedCopies(s, i + 1, n - 1, forWhat);
      OneOff(s, i, n, EscapedFrom(s, i + n, forWhat));
    }
  }

  lemma OneOff(s: Bytes, i: nat, n: nat, rest: Bytes)
    requires 0 < n && i + n <= |s|
    ensures [s[i]] + (s[i + 1..i + n] + rest) == s[i..i + n] + rest
  {
  }

  /** A byte above 0x7F that is escaped. */
  predicate Rejected(s: Bytes, i: nat, forWhat: ForWhat)
    requires i < |s|
  {
    Code(s[i]) >= 0x80 && StepAt(s, i, forWhat).length == 1
  }

  lemma EscapedStep(s: Bytes, i: nat, forWhat: ForWhat)
    requires i < |s|
    ensures var r := StepAt(s, i, forWhat);
      EscapedFrom(s, i, forWhat) == (if Rejected(s, i, forWhat) then [s[i]] else r.out)
          + EscapedFrom(s, i + r.length, forWhat)
    ensures Rejected(s, i, forWhat) ==> |StepAt(s, i, forWhat).out| == 4
  {
    hide StepAt, Accepted, EscapedFrom, HexEscape;
    if Rejected(s, i, forWhat) {
      RejectedIsHex(s, i, forWhat);
    }
    StepIsAccepted(s, i, forWhat);
    var r := StepAt(s, i, forWhat);
    if r.length > 1 {
      SequenceIsHigh(s, i, r.length, r.out);
      EscapedCopies(s, i, r.length, forWhat);
    } else {
      EscapedOne(s, i, forWhat);
    }
  }

  lemma EscapedOne(s: Bytes, i: nat, forWhat: ForWhat)
    requires i < |s|
    ensures EscapedFrom(s, i, forWhat)
         == (if Code(s[i]) >= 0x80 then [s[i]] else StepAt(s, i, forWhat).out) + EscapedFrom(s, i + 1, forWhat)
  {
    hide StepAt;
  }

  lemma RejectedIsHex(s: Bytes, i: nat, forWhat: ForWhat)
    requires i < |s| && Rejected(s, i, forWhat)
    ensures StepAt(s, i, forWhat).out == HexEscape(s[i])
  {
    hide Accepted, HexEscape;
  }

  lemma SequenceIsHigh(s: Bytes, i: nat, n: nat, out: Bytes)
    requires i + n <= |s| && out == s[i..i + n] && Accepted(out, n) && Code(s[i]) >= 0x80
    ensures forall k :: i <= k < i + n ==> Code(s[k]) >= 0x80
  {
    forall k | i <= k < i + n ensures Code(s[k]) >= 0x80 {
      assert s[k] == out[k - i];
      assert k > i ==> IsContinuation(out[k - i]);
    }
  }

  lemma AllAcceptedStep(s: Bytes, i: nat, forWhat: ForWhat)
    requires i < |s|
    ensures AllAccepted(s[i..]) <==> !Rejected(s, i, forWhat) && AllAccepted(s[i + StepAt(s, i, forWhat).length..])
  {
    var r := StepAt(s, i, forWhat);
    assert s[i..][r.length..] == s[i + r.length..];
    assert s[i..][0] == s[i];
    hide AllAccepted;
    StepIsAccepted(s, i, forWhat);
    AllAcceptedFirst(s[i..]);
    if r.length > 1 {
      assert s[i..][..r.length] == r.out[..r.length];
      AcceptedPrefix(r.out, s[i..], r.length);
    }
  }

  lemma AllAcceptedFirst(t: Bytes)
    requires t != []
    ensures AllAccepted(t) <==>
              if Code(t[0]) < 0x80 then AllAccepted(t[1..])
              else
                SequenceLength(t[0]) > 0 && Accepted(t, SequenceLength(t[0]))
                && AllAccepted(t[SequenceLength(t[0])..])
  {
  }

  /** A text is written with no byte above 0x7F escaped if and only if these bytes form accepted sequences,
      that is if it is valid UTF-8 but for surrogates and one overlong form. */
  lemma {:induction false} CopiedIffAccepted(s: Bytes, i: nat, forWhat: ForWhat)
    requires i <= |s|
    ensures |EncodeFrom(s, i, forWhat)| >= |EscapedFrom(s, i, forWhat)|
    ensures EncodeFrom(s, i, forWhat) == EscapedFrom(s, i, forWhat) <==> AllAccepted(s[i..])
    ensures EncodeFrom(s, i, forWhat) == EscapedFrom(s, i, forWhat) <==> NearlyUtf8(s[i..])
    ensures |EncodeFrom(s, i, forWhat)| == |EscapedFrom(s, i, forWhat)| ==> AllAccepted(s[i..])
    ensures Utf8(s[i..]) ==> EncodeFrom(s, i, forWhat) == EscapedFrom(s, i, forWhat)
    decreases |s| - i
  {
    hide StepAt, Rejected, AllAccepted, EscapedFrom, Utf8, NearlyUtf8;
    AllAcceptedIff(s[i..]);
    if i < |s| {
      var r := StepAt(s, i, forWhat);
      CopiedIffAccepted(s, i + r.length, forWhat);
      EscapedStep(s, i, forWhat);
      AllAcceptedStep(s, i, forWhat);
      var rest, plain := EncodeFrom(s, i + r.length, forWhat), EscapedFrom(s, i + r.length, forWhat);
      SameFront(r.out, rest, plain);
    } else {
      assert s[i..] == [];
      NothingAccepted(s, forWhat);
    }
    if Utf8(s[i..]) {
      Utf8AllAccepted(s[i..]);
    }
  }

  lemma SameFront(a: Bytes, b: Bytes, c: Bytes)
    ensures a + b == a + c <==> b == c
  {
    if a + b == a + c {
      assert (a + b)[|a|..] == b && (a + c)[|a|..] == c;
    }
  }

  lemma NothingAccepted(s: Bytes, forWhat: ForWhat)
    ensures AllAccepted([]) && EscapedFrom(s, |s|, forWhat) == []
  {
  }
}
