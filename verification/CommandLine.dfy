/** Command line parsing: arguments are cut into tokens, and tokens are handed to options and arguments. */
module CommandLine {

  datatype TokenType = Option | Argument

  datatype Token = Token(type_: TokenType, text: string)

  function FindFirstSeparator(s: string): (i: nat)
    ensures i <= |s|
    ensures i < |s| ==> s[i] == ' ' || s[i] == ':' || s[i] == '='
    ensures forall k :: 0 <= k < i ==> s[k] != ' ' && s[k] != ':' && s[k] != '='
  {
    if s == "" || s[0] == ' ' || s[0] == ':' || s[0] == '=' then 0 else 1 + FindFirstSeparator(s[1..])
  }

  /** One option for each character from `i` on. */
  function ShortOptions(s: string, i: nat): (ts: seq<Token>)
    requires i <= |s|
    ensures |ts| == |s| - i && forall k :: 0 <= k < |ts| ==> ts[k] == Token(Option, [s[i + k]])
    decreases |s| - i
  {
    if i == |s| then [] else [Token(Option, [s[i]])] + ShortOptions(s, i + 1)
  }

  /** The tokens of one command line argument; an empty one has none. */
  function TokensOf(arg: string): (ts: seq<Token>)
    ensures ts == [] <==> arg == ""
    ensures forall k :: 0 <= k < |ts| ==> ts[k].type_ == Option ==> ts[k].text != ""
  {
    if arg == "" then []
    else if arg[0] != '-' then [Token(Argument, arg)]
    else
      var i := FindFirstSeparator(arg);
      if i < |arg| then [Token(Option, arg[..i]), Token(Argument, arg[i + 1..])]
      else if |arg| > 2 && arg[1] != '-' then ShortOptions(arg, 1)
      else [Token(Option, arg)]
  }

  function Texts(ts: seq<Token>): string {
    if ts == [] then "" else ts[0].text + Texts(ts[1..])
  }

  /** An argument is cut without losing text: it is one token, or an option and its value with one separator
      between them, the first in the argument, or a dash and one option for each character behind it. */
  lemma {:induction false} TokensKeepText(arg: string)
    requires arg != ""
    ensures var ts := TokensOf(arg);
      || (ts == [Token(if arg[0] == '-' then Option else Argument, arg)])
      || (exists sep :: sep in " :=" && |ts| == 2 && ts[0].type_ == Option && ts[1].type_ == Argument
            && arg == ts[0].text + [sep] + ts[1].text && FindFirstSeparator(ts[0].text) == |ts[0].text|)
      || (|ts| >= 2 && arg == "-" + Texts(ts) && forall k :: 0 <= k < |ts| ==>
          ts[k].type_ == Option && |ts[k].text| == 1)
  {
    var ts := TokensOf(arg);
    if arg[0] == '-' {
      var i := FindFirstSeparator(arg);
      if i < |arg| {
        var sep := arg[i];
        assert sep in " :=";
        assert arg == arg[..i] + [sep] + arg[i + 1..];
        assert forall k :: 0 <= k < i ==> arg[..i][k] == arg[k];
      } else if |arg| > 2 && arg[1] != '-' {
        TextsOfShort(arg, 1);
        assert arg == [arg[0]] + arg[1..];
      }
    }
  }

  lemma {:induction false} TextsOfShort(s: string, i: nat)
    requires i <= |s|
    ensures Texts(ShortOptions(s, i)) == s[i..]
    decreases |s| - i
  {
    if i < |s| {
      TextsOfShort(s, i + 1);
      assert ShortOptions(s, i)[1..] == ShortOptions(s, i + 1);
      assert s[i..] == [s[i]] + s[i + 1..];
    }
  }

  function AllTokens(args: seq<string>): seq<Token> {
    if args == [] then [] else TokensOf(args[0]) + AllTokens(args[1..])
  }

  class TokenStream {
    const args: seq<string>
    var it: nat
    var tokenBuffer: seq<Token>

    ghost predicate Valid()
      reads this
    {
      && it <= |args|
      && (it == |args| <==> tokenBuffer == [])
      && forall k :: 0 <= k < |tokenBuffer| ==> tokenBuffer[k].type_ == Option ==> tokenBuffer[k].text != ""
    }

    /** The tokens still to come. */
    ghost function Remaining(): (ts: seq<Token>)
      requires Valid()
      reads this
      ensures ts == [] <==> tokenBuffer == []
      ensures ts != [] ==> ts[0] == tokenBuffer[0]
    {
      if it == |args| then [] else tokenBuffer + AllTokens(args[it + 1..])
    }

    constructor (args: seq<string>)
      ensures Valid() && this.args == args && Remaining() == AllTokens(args)
    {
      this.args := args;
      it := 0;
      tokenBuffer := [];
      new;
      LoadBuffer();
      assert args[0..] == args;
    }

    /** Cuts the next argument that is not empty into tokens. */
    method LoadBuffer()
      requires it <= |args|
      modifies this
      ensures Valid() && Remaining() == AllTokens(args[old(it)..])
    {
      hide TokensOf, AllTokens;
      tokenBuffer := [];
      while it != |args| && args[it] == ""
        invariant it <= |args| && tokenBuffer == []
        invariant AllTokens(args[it..]) == AllTokens(args[old(it)..])
        decreases |args| - it
      {
        FromHere(args, it);
        it := it + 1;
      }
      FromHere(args, it);
      if it != |args| {
        tokenBuffer := Tokenize(args[it]);
      }
    }

    /** Moves to the next token. */
    method Advance()
      requires Valid()
      modifies this
      ensures Valid() && Remaining() == (if old(Remaining()) == [] then [] else old(Remaining())[1..])
    {
      hide TokensOf, AllTokens;
      if |tokenBuffer| >= 2 {
        assert (tokenBuffer + AllTokens(args[it + 1..]))[1..] == tokenBuffer[1..] + AllTokens(args[it + 1..]);
        tokenBuffer := tokenBuffer[1..];
      } else {
        FromHere(args, it);
        if it != |args| {
          assert (tokenBuffer + AllTokens(args[it + 1..]))[1..] == AllTokens(args[it + 1..]);
          it := it + 1;
        }
        LoadBuffer();
      }
    }
  }

  lemma FromHere(args: seq<string>, i: nat)
    requires i <= |args|
    ensures AllTokens(args[i..]) == if i == |args| then [] else TokensOf(args[i]) + AllTokens(args[i + 1..])
    ensures i < |args| && args[i] == "" ==> AllTokens(args[i..]) == AllTokens(args[i + 1..])
  {
    if i < |args| {
      assert args[i..][1..] == args[i + 1..];
    }
  }

  /** Cuts one argument into tokens. */
  method Tokenize(next: string) returns (buffer: seq<Token>)
    requires next != ""
    ensures buffer == TokensOf(next)
  {
    buffer := [];
    if next[0] == '-' {
      var delimiterPos := FindFirstSeparator(next);
      if delimiterPos < |next| {
        buffer := buffer + [Token(Option, next[..delimiterPos])];
        buffer := buffer + [Token(Argument, next[delimiterPos + 1..])];
      } else if |next| > 1 && next[1] != '-' && |next| > 2 {
        var i := 1;
        while i < |next|
          invariant 1 <= i <= |next|
          invariant buffer + ShortOptions(next, i) == ShortOptions(next, 1)
        {
          assert buffer + ([Token(Option, [next[i]])] + ShortOptions(next, i + 1))
              == buffer + [Token(Option, [next[i]])] + ShortOptions(next, i + 1);
          buffer := buffer + [Token(Option, [next[i]])];
          i := i + 1;
        }
        assert ShortOptions(next, |next|) == [];
      } else {
        buffer := buffer + [Token(Option, next)];
      }
    } else {
      buffer := buffer + [Token(Argument, next)];
    }
  }

  /** What an option or argument is bound to: a flag, one value, or a container of values. */
  datatype Binding = Flag | Single | Many

  datatype Parser = Opt(names: seq<string>, binding: Binding) | Arg(binding: Binding)

  function Cardinality(p: Parser): nat {
    if p.binding == Many then 0 else 1
  }

  function Normalised(name: string): string
    requires name != ""
  {
    if name[0] == '-' then name[1..] else name
  }

  predicate ValidNames(names: seq<string>) {
    names != [] && forall k :: 0 <= k < |names| ==> names[k] != "" && names[k][0] == '-'
  }

  predicate IsMatch(names: seq<string>, token: string)
    requires ValidNames(names) && token != ""
  {
    exists k :: 0 <= k < |names| && Normalised(names[k]) == Normalised(token)
  }

  /** A value that was set: by which parser, and the tokens used for it. */
  datatype Call = Call(parser: nat, used: seq<Token>)

  datatype SetResult = Accepted | ShortCircuit | Rejected

  /** What setting a value does, given the values set before. */
  type Setter = (seq<Call>, Call) -> SetResult

  datatype ParseError =
    | LogicError
    | ExpectedArgument(option: string)
    | SetFailed(call: Call)
    | UnrecognisedToken(text: string)

  /** What one parser makes of the tokens. */
  datatype Attempt = NoMatch | Matched(call: Call) | Stopped(call: Call) | Failed(error: ParseError)

  function SetValue(set_: Setter, calls: seq<Call>, call: Call, stops: bool): Attempt {
    match set_(calls, call)
    case Accepted => Matched(call)
    case ShortCircuit => if stops then Stopped(call) else Matched(call)
    case Rejected => Failed(SetFailed(call))
  }

  predicate GoodTokens(ts: seq<Token>) {
    forall k :: 0 <= k < |ts| ==> ts[k].type_ == Option ==> ts[k].text != ""
  }

  function Try(p: Parser, i: nat, ts: seq<Token>, set_: Setter, calls: seq<Call>): (r: Attempt)
    requires ts != [] && GoodTokens(ts)
    ensures r.Matched? || r.Stopped? ==> r.call.used != [] && r.call.used <= ts && r.call.parser == i
  {
    match p
    case Arg(_) =>
      if ts[0].type_ != Argument then NoMatch else SetValue(set_, calls, Call(i, ts[..1]), false)
    case Opt(names, binding) =>
      if !ValidNames(names) then Failed(LogicError)
      else if ts[0].type_ != Option || !IsMatch(names, ts[0].text) then NoMatch
      else if binding == Flag then SetValue(set_, calls, Call(i, ts[..1]), true)
      else if |ts| < 2 || ts[1].type_ != Argument then Failed(ExpectedArgument(ts[0].text))
      else SetValue(set_, calls, Call(i, ts[..2]), true)
  }

  /** The first parser from `i` on that may still match and makes something of the tokens. */
  function TryAll(ps: seq<Parser>, i: nat, counts: seq<nat>, ts: seq<Token>, set_: Setter,
          calls: seq<Call>): (r: Attempt)
    requires |counts| == |ps| && ts != [] && GoodTokens(ts)
    ensures r.Matched? || r.Stopped? ==>
              && r.call.used != [] && r.call.used <= ts && i <= r.call.parser < |ps|
              && HasRoom(ps[r.call.parser], counts[r.call.parser])
    decreases |ps| - i
  {
    if i >= |ps| then NoMatch
    else if HasRoom(ps[i], counts[i]) && Try(ps[i], i, ts, set_, calls) != NoMatch then Try(ps[i], i, ts, set_, calls)
    else TryAll(ps, i + 1, counts, ts, set_, calls)
  }

  predicate HasRoom(p: Parser, count: nat) {
    Cardinality(p) == 0 || count < Cardinality(p)
  }

  datatype Outcome = Done(calls: seq<Call>) | StoppedAt(calls: seq<Call>) | Error(error: ParseError)

  function ParseFrom(ps: seq<Parser>, counts: seq<nat>, ts: seq<Token>, set_: Setter, calls: seq<Call>): Outcome
    requires |counts| == |ps| && GoodTokens(ts)
    decreases |ts|
  {
    if ts == [] then Done(calls)
    else
      match TryAll(ps, 0, counts, ts, set_, calls)
      case NoMatch => Error(UnrecognisedToken(ts[0].text))
      case Failed(e) => Error(e)
      case Stopped(call) => StoppedAt(calls + [call])
      case Matched(call) =>
        ParseFrom(ps, counts[call.parser := counts[call.parser] + 1], ts[|call.used|..], set_, calls + [call])
  }

  method IsMatchOf(names: seq<string>, token: string) returns (r: bool)
    requires ValidNames(names) && token != ""
    ensures r == IsMatch(names, token)
  {
    var normalisedToken := Normalised(token);
    for k := 0 to |names|
      invariant forall j :: 0 <= j < k ==> Normalised(names[j]) != normalisedToken
    {
      if Normalised(names[k]) == normalisedToken { return true; }
    }
    r := false;
  }

  method Validate(names: seq<string>) returns (ok: bool)
    ensures ok == ValidNames(names)
  {
    if names == [] { return false; }
    for k := 0 to |names|
      invariant forall j :: 0 <= j < k ==> names[j] != "" && names[j][0] == '-'
    {
      if names[k] == "" || names[k][0] != '-' { return false; }
    }
    ok := true;
  }

  /** Lets one parser look at the tokens; a match moves past the tokens it uses. */
  method ParseOne(p: Parser, i: nat, tokens: TokenStream, set_: Setter, calls: seq<Call>) returns (r: Attempt)
    requires tokens.Valid() && tokens.Remaining() != [] && GoodTokens(tokens.Remaining())
    modifies tokens
    ensures tokens.Valid() && r == Try(p, i, old(tokens.Remaining()), set_, calls)
    ensures r.NoMatch? ==> tokens.Remaining() == old(tokens.Remaining())
    ensures r.Matched? ==> tokens.Remaining() == old(tokens.Remaining())[|r.call.used|..]
  {
    hide ValidNames, IsMatch, TokenStream.Remaining;
    ghost var ts := tokens.Remaining();
    var token := tokens.tokenBuffer[0];
    if p.Arg? {
      if token.type_ != Argument { return NoMatch; }
      assert ts[..1] == [token];
      r := SetValue(set_, calls, Call(i, [token]), false);
      tokens.Advance();
    } else {
      var valid := Validate(p.names);
      if !valid { return Failed(LogicError); }
      if token.type_ != Option { return NoMatch; }
      var match_ := IsMatchOf(p.names, token.text);
      if !match_ { return NoMatch; }
      if p.binding == Flag {
        assert ts[..1] == [token];
        r := SetValue(set_, calls, Call(i, [token]), true);
      } else {
        tokens.Advance();
        if tokens.tokenBuffer == [] { return Failed(ExpectedArgument(token.text)); }
        var argToken := tokens.tokenBuffer[0];
        assert argToken == ts[1];
        if argToken.type_ != Argument { return Failed(ExpectedArgument(token.text)); }
        assert ts[..2] == [token, argToken];
        r := SetValue(set_, calls, Call(i, [token, argToken]), true);
      }
      if r.Matched? {
        tokens.Advance();
      }
    }
  }

  lemma TokensAreGood(args: seq<string>)
    ensures GoodTokens(AllTokens(args))
  {
    if args != [] {
      TokensAreGood(args[1..]);
    }
  }

  function Zeros(n: nat): (z: seq<nat>)
    ensures |z| == n && forall k :: 0 <= k < n ==> z[k] == 0
  {
    seq(n, _ => 0)
  }

  /** Offers the tokens to the parsers in turn. */
  method ParseAny(ps: seq<Parser>, counts: seq<nat>, tokens: TokenStream, set_: Setter, calls: seq<Call>)
          returns (attempt: Attempt)
    requires |counts| == |ps| && tokens.Valid() && tokens.Remaining() != [] && GoodTokens(tokens.Remaining())
    modifies tokens
    ensures tokens.Valid() && attempt == TryAll(ps, 0, counts, old(tokens.Remaining()), set_, calls)
    ensures attempt.Matched? ==> tokens.Remaining() == old(tokens.Remaining())[|attempt.call.used|..]
  {
    hide Try, GoodTokens, TokenStream.Remaining, TokenStream.Valid;
    ghost var ts := tokens.Remaining();
    attempt := NoMatch;
    var i := 0;
    while i < |ps|
      invariant i <= |ps| && tokens.Valid() && tokens.Remaining() == ts && attempt == NoMatch
      invariant TryAll(ps, i, counts, ts, set_, calls) == TryAll(ps, 0, counts, ts, set_, calls)
    {
      if Cardinality(ps[i]) == 0 || counts[i] < Cardinality(ps[i]) {
        attempt := ParseOne(ps[i], i, tokens, set_, calls);
        if attempt != NoMatch { return; }
      }
      i := i + 1;
    }
  }

  /** Parses a command line. Every round but the last moves past a token, so it ends. */
  method Parse(ps: seq<Parser>, args: seq<string>, set_: Setter) returns (o: Outcome)
    ensures GoodTokens(AllTokens(args)) && o == ParseFrom(ps, Zeros(|ps|), AllTokens(args), set_, [])
  {
    hide Try, TryAll, GoodTokens, AllTokens, TokenStream.Valid, TokenStream.Remaining;
    TokensAreGood(args);
    var counts: seq<nat> := Zeros(|ps|);
    var calls: seq<Call> := [];
    var tokens := new TokenStream(args);
    while tokens.tokenBuffer != []
      invariant tokens.Valid() && fresh(tokens) && GoodTokens(tokens.Remaining()) && |counts| == |ps|
      invariant ParseFrom(ps, counts, tokens.Remaining(), set_, calls)
          == ParseFrom(ps, Zeros(|ps|), AllTokens(args), set_, [])
      decreases |tokens.Remaining()|
    {
      ghost var ts := tokens.Remaining();
      var token := tokens.tokenBuffer[0];
      var attempt := ParseAny(ps, counts, tokens, set_, calls);
      match attempt {
        case Failed(e) => return Error(e);
        case Stopped(call) => return StoppedAt(calls + [call]);
        case NoMatch => return Error(UnrecognisedToken(token.text));
        case Matched(call) =>
          counts := counts[call.parser := counts[call.parser] + 1];
          calls := calls + [call];
          StillGood(ts, |call.used|);
      }
    }
    o := Done(calls);
  }

  lemma StillGood(ts: seq<Token>, n: nat)
    requires GoodTokens(ts) && n <= |ts|
    ensures GoodTokens(ts[n..])
  {
  }

  function Used(calls: seq<Call>): seq<Token> {
    if calls == [] then [] else calls[0].used + Used(calls[1..])
  }

  /** A call that its parser may make: a flag uses the option, any other option also the argument behind it,
      and an argument itself. */
  ghost predicate Legal(ps: seq<Parser>, call: Call) {
    && call.parser < |ps|
    && match ps[call.parser]
       case Arg(_) => |call.used| == 1 && call.used[0].type_ == Argument
       case Opt(names, binding) =>
         && ValidNames(names) && |call.used| == (if binding == Flag then 1 else 2)
         && call.used[0].type_ == Option && call.used[0].text != "" && IsMatch(names, call.used[0].text)
         && (|call.used| == 2 ==> call.used[1].type_ == Argument)
  }

  function CallsOf(calls: seq<Call>, i: nat): nat {
    if calls == [] then 0 else (if calls[0].parser == i then 1 else 0) + CallsOf(calls[1..], i)
  }

  /** What `set_` answers to a call decides how parsing goes on; only options can stop it. */
  ghost predicate Answers(ps: seq<Parser>, set_: Setter, calls: seq<Call>, call: Call, stops: bool)
    requires call.parser < |ps|
  {
    set_(calls, call) != Rejected && (stops <==> set_(calls, call) == ShortCircuit && ps[call.parser].Opt?)
  }

  lemma TryIsLegal(ps: seq<Parser>, i: nat, counts: seq<nat>, ts: seq<Token>, set_: Setter, calls: seq<Call>)
    requires |counts| == |ps| && ts != [] && GoodTokens(ts)
    requires TryAll(ps, i, counts, ts, set_, calls).Matched? || TryAll(ps, i, counts, ts, set_, calls).Stopped?
    ensures var r := TryAll(ps, i, counts, ts, set_, calls);
      Legal(ps, r.call) && Answers(ps, set_, calls, r.call, r.Stopped?)
    decreases |ps| - i
  {
    if !(HasRoom(ps[i], counts[i]) && Try(ps[i], i, ts, set_, calls) != NoMatch) {
      TryIsLegal(ps, i + 1, counts, ts, set_, calls);
    }
  }

  /** The calls use up exactly the tokens before `rest`, each legally and as often as the parsers allow. */
  ghost predicate UsesUp(ps: seq<Parser>, counts: seq<nat>, ts: seq<Token>, more: seq<Call>, rest: seq<Token>)
    requires |counts| == |ps|
  {
    && Used(more) + rest == ts
    && (forall k :: 0 <= k < |more| ==> Legal(ps, more[k]))
    && forall i :: 0 <= i < |ps| ==> Cardinality(ps[i]) == 0 || counts[i] + CallsOf(more, i) <= Cardinality(ps[i])
  }

  /** Every call was made with those before it set, none was refused, and the one that stopped the parse, if
      any did, was the last. */
  ghost predicate InTurn(ps: seq<Parser>, set_: Setter, calls: seq<Call>, more: seq<Call>, stopped: bool) {
    forall k :: 0 <= k < |more| ==>
      more[k].parser < |ps| && Answers(ps, set_, calls + more[..k], more[k], stopped && k == |more| - 1)
  }

  /** Unless parsing fails, every token is used exactly once and in order, each by a parser it matches, and
      no option or argument that takes one value is set twice; tokens are left only when an option stops it. */
  lemma {:induction false} ParseUses(ps: seq<Parser>, counts: seq<nat>, ts: seq<Token>, set_: Setter, calls: seq<Call>)
    returns (more: seq<Call>, rest: seq<Token>)
    requires |counts| == |ps| && GoodTokens(ts) && !ParseFrom(ps, counts, ts, set_, calls).Error?
    requires forall i :: 0 <= i < |ps| ==> Cardinality(ps[i]) == 0 || counts[i] <= Cardinality(ps[i])
    ensures var o := ParseFrom(ps, counts, ts, set_, calls);
      && o.calls == calls + more && UsesUp(ps, counts, ts, more, rest)
      && (if o.Done? then rest == [] else more != []) && InTurn(ps, set_, calls, more, o.StoppedAt?)
    decreases |ts|
  {
    hide Try, TryAll, Legal, Answers;
    if ts == [] {
      more, rest := [], [];
      assert calls + [] == calls;
    } else {
      hide UsesUp, InTurn;
      var r := TryAll(ps, 0, counts, ts, set_, calls);
      var call := r.call;
      TryIsLegal(ps, 0, counts, ts, set_, calls);
      var counts' := counts[call.parser := counts[call.parser] + 1];
      if r.Stopped? {
        more, rest := [], ts[|call.used|..];
        NoMoreCalls(ps, counts', set_, calls + [call], rest);
      } else {
        StillGood(ts, |call.used|);
        more, rest := ParseUses(ps, counts', ts[|call.used|..], set_, calls + [call]);
      }
      OneMoreCall(ps, counts, ts, call, more, rest);
      OneMoreTurn(ps, set_, calls, call, more, r.Stopped? || ParseFrom(ps, counts, ts, set_, calls).StoppedAt?);
      assert (calls + [call]) + more == calls + ([call] + more);
      more := [call] + more;
    }
  }

  lemma NoMoreCalls(ps: seq<Parser>, counts: seq<nat>, set_: Setter, calls: seq<Call>, ts: seq<Token>)
    requires |counts| == |ps|
    requires forall i :: 0 <= i < |ps| ==> Cardinality(ps[i]) == 0 || counts[i] <= Cardinality(ps[i])
    ensures UsesUp(ps, counts, ts, [], ts) && InTurn(ps, set_, calls, [], true)
  {
  }

  lemma OneMoreCall(ps: seq<Parser>, counts: seq<nat>, ts: seq<Token>, call: Call, more: seq<Call>, rest: seq<Token>)
    requires |counts| == |ps| && call.parser < |ps| && call.used <= ts && Legal(ps, call)
    requires UsesUp(ps, counts[call.parser := counts[call.parser] + 1], ts[|call.used|..], more, rest)
    ensures UsesUp(ps, counts, ts, [call] + more, rest)
  {
    hide Legal;
    var all := [call] + more;
    assert all[1..] == more;
    assert Used(all) + rest == call.used + (Used(more) + rest) == ts;
    forall i | 0 <= i < |ps| ensures Cardinality(ps[i]) == 0 || counts[i] + CallsOf(all, i) <= Cardinality(ps[i]) {
      assert CallsOf(all, i) == (if call.parser == i then 1 else 0) + CallsOf(more, i);
    }
  }

  lemma OneMoreTurn(ps: seq<Parser>, set_: Setter, calls: seq<Call>, call: Call, more: seq<Call>, stopped: bool)
    requires call.parser < |ps| && Answers(ps, set_, calls, call, stopped && more == [])
    requires InTurn(ps, set_, calls + [call], more, stopped)
    ensures InTurn(ps, set_, calls, [call] + more, stopped)
  {
    hide Answers;
    var all := [call] + more;
    forall k | 0 <= k < |all|
      ensures all[k].parser < |ps| && Answers(ps, set_, calls + all[..k], all[k], stopped && k == |all| - 1)
    {
      if k == 0 {
        assert calls + all[..0] == calls;
      } else {
        assert all[k] == more[k - 1];
        assert calls + all[..k] == calls + [call] + more[..k - 1];
      }
    }
  }

  /** The same for a whole command line: unless parsing fails, the calls made use a front part of its tokens,
      all of them when it is done. */
  lemma ParseCalls(ps: seq<Parser>, args: seq<string>, set_: Setter)
    requires GoodTokens(AllTokens(args)) && !ParseFrom(ps, Zeros(|ps|), AllTokens(args), set_, []).Error?
    ensures var o := ParseFrom(ps, Zeros(|ps|), AllTokens(args), set_, []);
      && Used(o.calls) <= AllTokens(args) && (o.Done? ==> Used(o.calls) == AllTokens(args))
      && (o.StoppedAt? ==> o.calls != []) && InTurn(ps, set_, [], o.calls, o.StoppedAt?)
      && (forall k :: 0 <= k < |o.calls| ==> Legal(ps, o.calls[k]))
      && forall i :: 0 <= i < |ps| ==> Cardinality(ps[i]) == 0 || CallsOf(o.calls, i) <= Cardinality(ps[i])
  {
    hide ParseFrom, InTurn, Legal, AllTokens;
    var more, rest := ParseUses(ps, Zeros(|ps|), AllTokens(args), set_, []);
    assert [] + more == more;
  }
}
