/** Reporter specifications given on the command line: name::key=value::key=value... */
module ReporterSpecs {
  import opened Wrappers

  predicate SeparatorAt(s: string, i: nat) {
    i + 1 < |s| && s[i] == ':' && s[i + 1] == ':'
  }

  /** The first separator at or after `i`; the length of `s` when there is none. */
  function NextSeparator(s: string, i: nat): (j: nat)
    requires i <= |s|
    ensures i <= j <= |s|
    ensures j < |s| ==> SeparatorAt(s, j)
    ensures forall k :: i <= k < j ==> !SeparatorAt(s, k)
    decreases |s| - i
  {
    if i == |s| || SeparatorAt(s, i) then i else NextSeparator(s, i + 1)
  }

  /** The parts between the separators. */
  function Split(s: string): (parts: seq<string>)
    ensures parts != []
    decreases |s|
  {
    var i := NextSeparator(s, 0);
    if i == |s| then [s] else [s[..i]] + Split(s[i + 2..])
  }

  function Join(parts: seq<string>): string {
    if parts == [] then "" else if |parts| == 1 then parts[0] else parts[0] + "::" + Join(parts[1..])
  }

  /** The separator after `startPos`, if any. */
  method FindNextSeparator(spec: string, startPos: nat) returns (pos: nat)
    requires startPos < |spec|
    ensures pos == NextSeparator(spec, startPos)
  {
    pos := startPos;
    while true
      invariant startPos <= pos < |spec|
      invariant NextSeparator(spec, pos) == NextSeparator(spec, startPos)
      decreases |spec| - pos
    {
      while pos < |spec| && spec[pos] != ':'
        invariant startPos <= pos <= |spec|
        invariant NextSeparator(spec, pos) == NextSeparator(spec, startPos)
      {
        pos := pos + 1;
      }
      if pos + 1 < |spec| && spec[pos + 1] == ':' { return; }
      if pos >= |spec| - 1 { return |spec|; }
      pos := pos + 1;
    }
  }

  lemma SplitRest(s: string, from: nat)
    requires from <= |s|
    ensures var j := NextSeparator(s, from);
      Split(s[from..]) == if j == |s| then [s[from..]] else [s[from..j]] + Split(s[j + 2..])
  {
    NextInSuffix(s, from, 0);
    SplitOnce(s[from..]);
    hide Split;
    var i := NextSeparator(s[from..], 0);
    if i < |s[from..]| {
      SuffixParts(s, from, i);
    }
  }

  lemma SplitOnce(t: string)
    ensures var i := NextSeparator(t, 0);
      Split(t) == if i == |t| then [t] else [t[..i]] + Split(t[i + 2..])
  {
    hide NextSeparator;
  }

  lemma SuffixParts(s: string, from: nat, i: nat)
    requires from + i + 2 <= |s|
    ensures s[from..][..i] == s[from..from + i] && s[from..][i + 2..] == s[from + i + 2..]
  {
  }

  lemma {:induction false} NextInSuffix(s: string, from: nat, i: nat)
    requires from + i <= |s|
    ensures NextSeparator(s[from..], i) + from == NextSeparator(s, from + i)
    decreases |s| - i
  {
    if from + i < |s| {
      assert SeparatorAt(s[from..], i) <==> SeparatorAt(s, from + i);
      NextInSuffix(s, from, i + 1);
    }
  }

  /** Splits a specification into its parts. */
  method SplitReporterSpec(spec: string) returns (parts: seq<string>)
    ensures parts == Split(spec)
  {
    hide Split;
    parts := [];
    var separatorPos: nat := 0;
    assert spec[0..] == spec;
    while separatorPos < |spec|
      invariant separatorPos <= |spec|
      invariant parts + Split(spec[separatorPos..]) == Split(spec)
    {
      var nextSeparator := FindNextSeparator(spec, separatorPos);
      SplitRest(spec, separatorPos);
      Regroup(parts, spec[separatorPos..nextSeparator], spec, nextSeparator);
      parts := parts + [spec[separatorPos..nextSeparator]];
      if nextSeparator == |spec| {
        assert spec[separatorPos..nextSeparator] == spec[separatorPos..];
        break;
      }
      separatorPos := nextSeparator + 2;
    }
    if separatorPos == |spec| {
      SplitNothing(spec);
      parts := parts + [""];
    }
  }

  lemma Regroup(parts: seq<string>, part: string, s: string, i: nat)
    requires i <= |s|
    ensures i + 2 <= |s| ==> parts + ([part] + Split(s[i + 2..])) == parts + [part] + Split(s[i + 2..])
  {
  }

  lemma SplitNothing(s: string)
    ensures Split(s[|s|..]) == [""]
  {
    assert s[|s|..] == "";
  }

  lemma FrontHasNone(s: string, i: nat)
    requires i <= |s| && forall k :: 0 <= k < i ==> !SeparatorAt(s, k)
    ensures NextSeparator(s[..i], 0) == i
  {
    forall k | 0 <= k < i ensures !SeparatorAt(s[..i], k) {
      assert !SeparatorAt(s, k);
    }
  }

  /** Joining the parts gives the specification back, and no part holds a separator. */
  lemma {:induction false} JoinSplit(s: string)
    ensures Join(Split(s)) == s
    ensures forall k :: 0 <= k < |Split(s)| ==> NextSeparator(Split(s)[k], 0) == |Split(s)[k]|
    decreases |s|
  {
    var i := NextSeparator(s, 0);
    if i < |s| {
      JoinSplit(s[i + 2..]);
      assert s == s[..i] + "::" + s[i + 2..];
      FrontHasNone(s, i);
    }
  }

  /** No part holds a separator, and none but the last ends with a colon. */
  ghost predicate Separable(parts: seq<string>) {
    forall k :: 0 <= k < |parts| ==>
      && NextSeparator(parts[k], 0) == |parts[k]|
      && (k + 1 < |parts| && parts[k] != "" ==> parts[k][|parts[k]| - 1] != ':')
  }

  /** Splitting what was joined gives the parts back if and only if no part holds a separator and none but
      the last ends with a colon. */
  lemma {:induction false} SplitJoin(parts: seq<string>)
    requires parts != []
    ensures Split(Join(parts)) == parts <==> Separable(parts)
    decreases |parts|
  {
    var s := Join(parts);
    if |parts| == 1 {
      JoinSplit(s);
      assert Split(s) == parts ==> Split(s)[0] == parts[0];
    } else {
      var first, rest := parts[0], parts[1..];
      var joined := Join(rest);
      SplitJoin(rest);
      FirstSeparator(first, joined);
      var ok := NextSeparator(first, 0) == |first| && (first != "" ==> first[|first| - 1] != ':');
      assert Separable(parts) <==> ok && Separable(rest) by { SeparableFirst(parts); }
      if ok {
        assert s[..|first|] == first && s[|first| + 2..] == joined;
        assert Split(s) == [first] + Split(joined);
        assert parts == [first] + rest;
        assert Split(s) == parts ==> Split(s)[1..] == Split(joined);
      }
    }
  }

  lemma SeparableFirst(parts: seq<string>)
    requires |parts| > 1
    ensures Separable(parts) <==>
              NextSeparator(parts[0], 0) == |parts[0]| && (parts[0] != "" ==> parts[0][|parts[0]| - 1] != ':')
                  && Separable(parts[1..])
  {
    var rest := parts[1..];
    if Separable(parts) {
      forall k | 0 <= k < |rest|
        ensures NextSeparator(rest[k], 0) == |rest[k]|
            && (k + 1 < |rest| && rest[k] != "" ==> rest[k][|rest[k]| - 1] != ':')
      {
        assert rest[k] == parts[k + 1];
      }
    }
    if Separable(rest) {
      forall k | 1 <= k < |parts|
        ensures NextSeparator(parts[k], 0) == |parts[k]|
            && (k + 1 < |parts| && parts[k] != "" ==> parts[k][|parts[k]| - 1] != ':')
      {
        assert parts[k] == rest[k - 1];
      }
    }
  }

  /** The first separator of a joined string is the one behind the first part, unless that part brings one
      itself. */
  lemma FirstSeparator(first: string, joined: string)
    ensures var s := first + "::" + joined;
      NextSeparator(s, 0) == |first| <==>
          NextSeparator(first, 0) == |first| && (first != "" ==> first[|first| - 1] != ':')
    ensures NextSeparator(first + "::" + joined, 0) <= |first|
  {
    var s := first + "::" + joined;
    assert SeparatorAt(s, |first|);
    forall k | 0 <= k < |first|
      ensures SeparatorAt(s, k) <==> SeparatorAt(first, k) || (k == |first| - 1 && first[k] == ':')
    {
      assert s[k] == first[k];
      assert k + 1 < |first| ==> s[k + 1] == first[k + 1];
    }
    var n := NextSeparator(s, 0);
    if n == |first| {
      assert forall k :: 0 <= k < |first| ==> !SeparatorAt(s, k);
    } else {
      assert SeparatorAt(s, n);
    }
  }

  datatype ColourMode = PlatformDefault | ANSI | Win32 | NoColour

  /** The part of a specification after the name, while it is read. */
  datatype Options = Options(outputFileName: Option<string>, colourMode: Option<ColourMode>, customOptions: map<string,
      string>)

  datatype ReporterSpec = ReporterSpec(name: string, options: Options)

  const NO_OPTIONS := Options(None, None, map[])

  function StringToColourMode(s: string): Option<ColourMode> {
    if s == "default" then Some(PlatformDefault)
    else if s == "ansi" then Some(ANSI)
    else if s == "win32" then Some(Win32)
    else if s == "none" then Some(NoColour)
    else None
  }

  function FindEquals(s: string): (i: nat)
    ensures i <= |s| && (i < |s| ==> s[i] == '=') && forall k :: 0 <= k < i ==> s[k] != '='
  {
    if s == "" || s[0] == '=' then 0 else 1 + FindEquals(s[1..])
  }

  function Key(part: string): string {
    part[..FindEquals(part)]
  }

  function Value(part: string): string {
    if FindEquals(part) < |part| then part[FindEquals(part) + 1..] else ""
  }

  /** The options with one more part read; nothing when the part is malformed or its key was there before. */
  function Add(o: Options, part: string): Option<Options> {
    var key, value := Key(part), Value(part);
    if key == "" || value == "" then None
    else if key[0] == 'X' then
      if |key| == 1 || key in o.customOptions then None else Some(o.(customOptions := o.customOptions[key := value]))
    else if key == "out" then
      if o.outputFileName.Some? then None else Some(o.(outputFileName := Some(value)))
    else if key == "colour-mode" then
      if o.colourMode.Some? || StringToColourMode(value).None? then None
          else Some(o.(colourMode := StringToColourMode(value)))
    else None
  }

  function AddAll(o: Option<Options>, parts: seq<string>): Option<Options>
    decreases |parts|
  {
    if parts == [] || o == None then o else AddAll(Add(o.value, parts[0]), parts[1..])
  }

  /** Parses a specification. */
  method ParseReporterSpec(spec: string) returns (r: Option<ReporterSpec>)
    ensures var options := AddAll(Some(NO_OPTIONS), Split(spec)[1..]);
      r == if options == None then None else Some(ReporterSpec(Split(spec)[0], options.value))
  {
    var parts := SplitReporterSpec(spec);
    var kvPairs: map<string, string> := map[];
    var outputFileName: Option<string> := None;
    var colourMode: Option<ColourMode> := None;
    var i := 1;
    while i < |parts|
      invariant 1 <= i <= |parts|
      invariant AddAll(Some(Options(outputFileName, colourMode, kvPairs)), parts[i..])
          == AddAll(Some(NO_OPTIONS), parts[1..])
    {
      assert parts[i..][1..] == parts[i + 1..];
      var key, value := Key(parts[i]), Value(parts[i]);
      if key == "" || value == "" {
        return None;
      } else if key[0] == 'X' {
        if |key| == 1 || key in kvPairs { return None; }
        kvPairs := kvPairs[key := value];
      } else if key == "out" {
        if outputFileName.Some? { return None; }
        outputFileName := Some(value);
      } else if key == "colour-mode" {
        if colourMode.Some? { return None; }
        colourMode := StringToColourMode(value);
        if colourMode.None? { return None; }
      } else {
        return None;
      }
      i := i + 1;
    }
    r := Some(ReporterSpec(parts[0], Options(outputFileName, colourMode, kvPairs)));
  }

  /** Two parts next to each other may be swapped, whether they are accepted or not. */
  lemma SwapTwo(o: Options, x: string, y: string, rest: seq<string>)
    ensures AddAll(Some(o), [x, y] + rest) == AddAll(Some(o), [y, x] + rest)
  {
    SecondOfTwo(o, x, y, rest);
    SecondOfTwo(o, y, x, rest);
    AddCommutes(o, x, y);
  }

  function AddTwo(o: Options, x: string, y: string): Option<Options> {
    if Add(o, x) == None then None else Add(Add(o, x).value, y)
  }

  lemma SecondOfTwo(o: Options, x: string, y: string, rest: seq<string>)
    ensures AddAll(Some(o), [x, y] + rest) == AddAll(AddTwo(o, x, y), rest)
  {
    assert ([x, y] + rest)[1..] == [y] + rest;
    assert ([y] + rest)[1..] == rest;
  }

  lemma AddCommutes(o: Options, x: string, y: string)
    ensures AddTwo(o, x, y) == AddTwo(o, y, x)
  {
    hide Key, Value, StringToColourMode;
    if Key(x) != Key(y) {
      assert o.customOptions[Key(x) := Value(x)][Key(y) := Value(y)]
          == o.customOptions[Key(y) := Value(y)][Key(x) := Value(x)];
    }
  }

  /** A part may be moved to the front. */
  lemma {:induction false} MoveToFront(o: Option<Options>, parts: seq<string>, i: nat)
    requires i < |parts|
    ensures AddAll(o, parts) == AddAll(o, [parts[i]] + parts[..i] + parts[i + 1..])
    decreases i
  {
    if i == 0 {
      assert [parts[0]] + parts[..0] + parts[1..] == parts;
    } else if o.Some? {
      var x, rest := parts[i], parts[1..];
      MoveToFront(Add(o.value, parts[0]), rest, i - 1);
      var others := rest[..i - 1] + rest[i..];
      assert rest[i - 1] == x && [x] + rest[..i - 1] + rest[i..] == [x] + others;
      assert ([parts[0], x] + others)[1..] == [x] + others;
      SwapTwo(o.value, parts[0], x, others);
      assert [x, parts[0]] + others == [x] + parts[..i] + parts[i + 1..];
    }
  }

  /** The fields that are parsed, and whether parsing fails, do not depend on the order of the parts. */
  lemma {:induction false} AnyOrder(o: Option<Options>, parts: seq<string>, other: seq<string>)
    requires multiset(parts) == multiset(other)
    ensures AddAll(o, parts) == AddAll(o, other)
    decreases |parts|
  {
    assert |parts| == |multiset(parts)| == |multiset(other)| == |other|;
    if parts != [] {
      var x := parts[0];
      assert x in multiset(other);
      var i :| 0 <= i < |other| && other[i] == x;
      var others := other[..i] + other[i + 1..];
      MoveToFront(o, other, i);
      TakeOut(parts, other, i);
      if o.Some? {
        AnyOrder(Add(o.value, x), parts[1..], others);
      }
    }
  }

  lemma TakeOut(parts: seq<string>, other: seq<string>, i: nat)
    requires parts != [] && i < |other| && other[i] == parts[0] && multiset(parts) == multiset(other)
    ensures var others := other[..i] + other[i + 1..];
      && multiset(parts[1..]) == multiset(others)
      && ([parts[0]] + other[..i] + other[i + 1..])[0] == parts[0]
      && ([parts[0]] + other[..i] + other[i + 1..])[1..] == others
  {
    WithOut(parts, 0);
    WithOut(other, i);
    assert parts[..0] + parts[0 + 1..] == parts[1..];
    Cancel(parts[0], multiset(parts[1..]), multiset(other[..i] + other[i + 1..]));
  }

  lemma WithOut(s: seq<string>, i: nat)
    requires i < |s|
    ensures multiset(s) == multiset{s[i]} + multiset(s[..i] + s[i + 1..])
  {
    assert s == s[..i] + [s[i]] + s[i + 1..];
  }

  lemma Cancel(x: string, a: multiset<string>, b: multiset<string>)
    requires multiset{x} + a == multiset{x} + b
    ensures a == b
  {
    assert a == (multiset{x} + a) - multiset{x};
    assert b == (multiset{x} + b) - multiset{x};
  }

  /** The options say what the part says. */
  predicate Says(o: Options, part: string) {
    var key, value := Key(part), Value(part);
    && value != ""
    && if key == "out" then o.outputFileName == Some(value)
       else if key == "colour-mode" then o.colourMode.Some? && o.colourMode == StringToColourMode(value)
       else |key| > 1 && key[0] == 'X' && key in o.customOptions && o.customOptions[key] == value
  }

  function Size(o: Options): nat {
    |o.customOptions| + (if o.outputFileName.Some? then 1 else 0) + (if o.colourMode.Some? then 1 else 0)
  }

  lemma AddSays(o: Options, part: string)
    requires Add(o, part).Some?
    ensures var r := Add(o, part).value;
      Says(r, part) && Size(r) == Size(o) + 1 && forall p :: Says(o, p) ==> Says(r, p)
  {
    hide FindEquals, StringToColourMode;
  }

  /** Every part of an accepted specification is found in its fields, and the fields hold nothing else. */
  lemma {:induction false} FieldsOfParts(o: Options, parts: seq<string>)
    requires AddAll(Some(o), parts).Some?
    ensures var r := AddAll(Some(o), parts).value;
      && (forall k :: 0 <= k < |parts| ==> Says(r, parts[k]))
      && (forall part :: Says(o, part) ==> Says(r, part))
      && Size(r) == Size(o) + |parts|
    decreases |parts|
  {
    if parts != [] {
      hide Add, Says, Size;
      var next := Add(o, parts[0]).value;
      AddSays(o, parts[0]);
      FieldsOfParts(next, parts[1..]);
    }
  }

  /** A printed specification is parsed back, whatever the order of its parts: the parts may be any accepted
      ones without a separator or a colon at the end. */
  lemma ParsesBack(name: string, parts: seq<string>, other: seq<string>)
    requires Separable([name] + parts) && multiset(parts) == multiset(other)
    ensures Split(Join([name] + parts)) == [name] + parts
    ensures AddAll(Some(NO_OPTIONS), Split(Join([name] + parts))[1..]) == AddAll(Some(NO_OPTIONS), other)
  {
    SplitJoin([name] + parts);
    assert ([name] + parts)[1..] == parts;
    AnyOrder(Some(NO_OPTIONS), parts, other);
  }

  /** The part gives the key a value; what stands before its first '=' is the key. */
  predicate Gives(part: string, key: string, value: string) {
    part == key + "=" + value && '=' !in key
  }

  predicate KnownOption(key: string, value: string) {
    && value != ""
    && (|| key == "out"
        || (key == "colour-mode" && value in {"default", "ansi", "win32", "none"})
        || (|key| > 1 && key[0] == 'X'))
  }

  /** Each part gives a known option, and no two the same one. */
  ghost predicate Acceptable(parts: seq<string>, keys: seq<string>, values: seq<string>) {
    && |keys| == |values| == |parts|
    && (forall k :: 0 <= k < |parts| ==> Gives(parts[k], keys[k], values[k]) && KnownOption(keys[k], values[k]))
    && (forall j, k :: 0 <= j < k < |parts| ==> keys[j] != keys[k])
  }

  /** The option was given before. */
  predicate IsSet(o: Options, key: string) {
    if key == "out" then o.outputFileName.Some?
    else if key == "colour-mode" then o.colourMode.Some?
    else key in o.customOptions
  }

  /** The options hold the value for the key. */
  predicate Holds(o: Options, key: string, value: string) {
    && (key == "out" ==> o.outputFileName == Some(value))
    && (key == "colour-mode" && value == "default" ==> o.colourMode == Some(PlatformDefault))
    && (key == "colour-mode" && value == "ansi" ==> o.colourMode == Some(ANSI))
    && (key == "colour-mode" && value == "win32" ==> o.colourMode == Some(Win32))
    && (key == "colour-mode" && value == "none" ==> o.colourMode == Some(NoColour))
    && (key != "out" && key != "colour-mode" ==> key in o.customOptions && o.customOptions[key] == value)
  }

  /** The options say the same about the key. */
  predicate SameFor(o: Options, r: Options, key: string) {
    && (key == "out" ==> o.outputFileName == r.outputFileName)
    && (key == "colour-mode" ==> o.colourMode == r.colourMode)
    && (key in o.customOptions <==> key in r.customOptions)
    && (key in o.customOptions && key in r.customOptions ==> o.customOptions[key] == r.customOptions[key])
  }

  lemma KeyValueIs(part: string, key: string, value: string)
    requires Gives(part, key, value)
    ensures Key(part) == key && Value(part) == value
  {
    var i := FindEquals(part);
    assert part[|key|] == '=';
    assert forall j :: 0 <= j < |key| ==> part[j] == key[j];
  }

  lemma GivesSplit(part: string)
    requires Value(part) != ""
    ensures Gives(part, Key(part), Value(part))
  {
    var i := FindEquals(part);
    assert part == part[..i] + [part[i]] + part[i + 1..];
  }

  /** One part more is accepted if and only if it gives a known option that was not given before. */
  lemma AddIff(o: Options, part: string)
    ensures var key, value := Key(part), Value(part);
      && (Add(o, part).Some? <==> Gives(part, key, value) && KnownOption(key, value) && !IsSet(o, key))
      && (Add(o, part).Some? ==>
            var r := Add(o, part).value;
            && Holds(r, key, value)
            && (forall other :: other != key ==> SameFor(o, r, other))
            && (forall k :: k in r.customOptions ==> k in o.customOptions || (k != "" && k[0] == 'X')))
  {
    if Value(part) != "" {
      GivesSplit(part);
    }
    hide FindEquals, Key, Value;
    assert "out"[0] == 'o' && "colour-mode"[0] == 'c';
  }

  lemma SetAfter(o: Options, r: Options, key: string, value: string)
    requires Holds(r, key, value) && KnownOption(key, value) && forall other :: other != key ==> SameFor(o, r, other)
    ensures forall k :: IsSet(r, k) <==> k == key || IsSet(o, k)
  {
    forall k ensures IsSet(r, k) <==> k == key || IsSet(o, k) {
      assert k != key ==> SameFor(o, r, k);
    }
  }

  /** Options that are known, different and not given before are all read, and nothing else changes. */
  lemma {:induction false} AcceptsAll(o: Options, parts: seq<string>, keys: seq<string>, values: seq<string>)
    requires Acceptable(parts, keys, values) && forall k :: 0 <= k < |keys| ==> !IsSet(o, keys[k])
    ensures AddAll(Some(o), parts).Some?
    ensures var r := AddAll(Some(o), parts).value;
      && (forall k :: 0 <= k < |keys| ==> Holds(r, keys[k], values[k]))
      && (forall other :: other !in keys ==> SameFor(o, r, other))
      && (forall k :: k in r.customOptions ==> k in o.customOptions || (k != "" && k[0] == 'X'))
    decreases |parts|
  {
    hide Gives, KnownOption, IsSet, Holds, SameFor, Add;
    if parts != [] {
      FirstGives(parts, keys, values);
      AddIff(o, parts[0]);
      var next := Add(o, parts[0]).value;
      SetAfter(o, next, keys[0], values[0]);
      AcceptsAll(next, parts[1..], keys[1..], values[1..]);
      var r := AddAll(Some(o), parts).value;
      HoldsStill(next, r, keys[0], values[0]);
      forall k | 0 <= k < |keys| ensures Holds(r, keys[k], values[k]) {
        assert k > 0 ==> keys[k] == keys[1..][k - 1] && values[k] == values[1..][k - 1];
      }
      forall other | other !in keys ensures SameFor(o, r, other) {
        assert other !in keys[1..];
        SameForBoth(o, next, r, other);
      }
    } else {
      SameForItself(o);
    }
  }

  lemma FirstGives(parts: seq<string>, keys: seq<string>, values: seq<string>)
    requires Acceptable(parts, keys, values) && parts != []
    ensures Key(parts[0]) == keys[0] && Value(parts[0]) == values[0]
    ensures Gives(parts[0], keys[0], values[0]) && KnownOption(keys[0], values[0])
    ensures Acceptable(parts[1..], keys[1..], values[1..]) && keys[0] !in keys[1..]
  {
    hide KnownOption;
    KeyValueIs(parts[0], keys[0], values[0]);
  }

  lemma HoldsStill(o: Options, r: Options, key: string, value: string)
    requires Holds(o, key, value) && SameFor(o, r, key)
    ensures Holds(r, key, value)
  {
  }

  lemma SameForBoth(o: Options, next: Options, r: Options, key: string)
    requires SameFor(o, next, key) && SameFor(next, r, key)
    ensures SameFor(o, r, key)
  {
  }

  lemma SameForItself(o: Options)
    ensures forall key :: SameFor(o, o, key)
  {
  }

  /** Only such options are read. */
  lemma {:induction false} OnlyAcceptable(o: Options, parts: seq<string>)
          returns (keys: seq<string>, values: seq<string>)
    requires AddAll(Some(o), parts).Some?
    ensures Acceptable(parts, keys, values) && forall k :: 0 <= k < |keys| ==> !IsSet(o, keys[k])
    decreases |parts|
  {
    hide Gives, KnownOption, IsSet, Holds, SameFor, Add;
    keys, values := [], [];
    if parts != [] {
      AddIff(o, parts[0]);
      var next := Add(o, parts[0]).value;
      var key, value := Key(parts[0]), Value(parts[0]);
      SetAfter(o, next, key, value);
      keys, values := OnlyAcceptable(next, parts[1..]);
      keys, values := [key] + keys, [value] + values;
    }
  }

  /** The parts after the name are accepted if and only if each gives a known option, that is "out", "colour-mode"
      with one of its four words, or one that begins with 'X', and no two the same one. */
  lemma AcceptedIff(parts: seq<string>)
    ensures AddAll(Some(NO_OPTIONS), parts).Some? <==> exists keys, values :: Acceptable(parts, keys, values)
  {
    hide Acceptable, AddAll;
    if AddAll(Some(NO_OPTIONS), parts).Some? {
      var keys, values := OnlyAcceptable(NO_OPTIONS, parts);
    }
    if keys, values :| Acceptable(parts, keys, values) {
      AcceptedFields(parts, keys, values);
    }
  }

  /** The fields then hold the value of each of these options, and nothing of any other. */
  lemma AcceptedFields(parts: seq<string>, keys: seq<string>, values: seq<string>)
    requires Acceptable(parts, keys, values)
    ensures AddAll(Some(NO_OPTIONS), parts).Some?
    ensures var r := AddAll(Some(NO_OPTIONS), parts).value;
      && (forall k :: 0 <= k < |keys| ==> Holds(r, keys[k], values[k]))
      && ("out" !in keys ==> r.outputFileName == None) && ("colour-mode" !in keys ==> r.colourMode == None)
      && forall key :: key in r.customOptions ==> key in keys && key[..1] == "X"
  {
    hide IsSet, Acceptable, AddAll, Holds, SameFor;
    NothingSet();
    AcceptsAll(NO_OPTIONS, parts, keys, values);
    var r := AddAll(Some(NO_OPTIONS), parts).value;
    forall key | key !in keys
      ensures key !in r.customOptions && (key == "out" ==> r.outputFileName == None)
      ensures key == "colour-mode" ==> r.colourMode == None
    {
      NothingHeld(r, key);
    }
  }

  lemma NothingHeld(r: Options, key: string)
    requires SameFor(NO_OPTIONS, r, key)
    ensures key !in r.customOptions && (key == "out" ==> r.outputFileName == None)
    ensures key == "colour-mode" ==> r.colourMode == None
  {
  }

  lemma NothingSet()
    ensures forall key :: !IsSet(NO_OPTIONS, key)
  {
  }

  /** For instance "xml::out=report.xml" names a reporter and its output file. */
  lemma OutputFile(name: string, file: string)
    requires ':' !in name && ':' !in file && file != ""
    ensures Split(name + "::" + ("out=" + file)) == [name, "out=" + file]
    ensures AddAll(Some(NO_OPTIONS), ["out=" + file]) == Some(Options(Some(file), None, map[]))
  {
    hide Split, AddAll, NextSeparator;
    var part := "out=" + file;
    var parts := [name, part];
    assert parts[1..] == [part] && Join([part]) == part;
    NoColon(name);
    NoColon(part);
    SplitJoin(parts);
    OneOption(part, "out", file);
  }

  lemma OneOption(part: string, key: string, value: string)
    requires part == "out=" + value && key == "out" && value != ""
    ensures AddAll(Some(NO_OPTIONS), [part]) == Some(Options(Some(value), None, map[]))
  {
    assert part == key + "=" + value;
    AcceptedFields([part], [key], [value]);
    var r := AddAll(Some(NO_OPTIONS), [part]).value;
    hide AddAll;
    assert [key][0] == key && Holds(r, key, value);
  }

  lemma NoColon(part: string)
    requires ':' !in part
    ensures NextSeparator(part, 0) == |part| && (part != "" ==> part[|part| - 1] != ':')
  {
    forall k: nat ensures !SeparatorAt(part, k) {
      assert k < |part| ==> part[k] in part;
    }
  }
}
