/** Which parser a token goes to, and which command lines are accepted. */
module CommandLineMatching {
  import opened CommandLine

  /** The token names the option: it begins with a dash and is one of the names, or is one behind the dash. */
  predicate Names(names: seq<string>, token: string) {
    exists k :: 0 <= k < |names| && names[k] == if token != "" && token[0] == '-' then token else "-" + token
  }

  lemma MatchNames(names: seq<string>, token: string)
    requires ValidNames(names) && token != ""
    ensures IsMatch(names, token) <==> Names(names, token)
  {
    var name := if token[0] == '-' then token else "-" + token;
    assert name[1..] == Normalised(token);
    forall k | 0 <= k < |names| ensures Normalised(names[k]) == Normalised(token) <==> names[k] == name {
      assert names[k] == "-" + names[k][1..];
      assert name == "-" + name[1..];
    }
  }

  /** Every option has a name, and every name begins with a dash. */
  predicate Named(p: Parser) {
    p.Opt? ==> p.names != [] && forall k :: 0 <= k < |p.names| ==> p.names[k] != "" && p.names[k][0] == '-'
  }

  /** A flag or a single value may be set once, a container of values any number of times. */
  predicate MayBeSet(p: Parser, count: nat) {
    p.binding == Many || count == 0
  }

  /** The parser is for the first of the tokens. */
  predicate IsFor(p: Parser, ts: seq<Token>) {
    && ts != []
    && match p
       case Arg(_) => ts[0].type_ == Argument
       case Opt(names, _) => ts[0].type_ == Option && Names(names, ts[0].text)
  }

  /** The parser may be set and is for the first token, or is an option without proper names. */
  predicate Claims(p: Parser, count: nat, ts: seq<Token>) {
    MayBeSet(p, count) && (IsFor(p, ts) || !Named(p))
  }

  /** What becomes of the parse when parser `i` gets the tokens. */
  function Given(ps: seq<Parser>, i: nat, counts: seq<nat>, ts: seq<Token>, set_: Setter, calls: seq<Call>): Outcome
    requires |counts| == |ps| && i < |ps| && ts != [] && GoodTokens(ts)
  {
    var p := ps[i];
    if !Named(p) then Error(LogicError)
    else if p.Opt? && p.binding != Flag && (|ts| < 2 || ts[1].type_ != Argument) then
        Error(ExpectedArgument(ts[0].text))
    else
      var n := if p.Opt? && p.binding != Flag then 2 else 1;
      var call := Call(i, ts[..n]);
      match set_(calls, call)
      case Rejected => Error(SetFailed(call))
      case ShortCircuit =>
        if p.Opt? then StoppedAt(calls + [call])
        else ParseFrom(ps, counts[i := counts[i] + 1], ts[n..], set_, calls + [call])
      case Accepted => ParseFrom(ps, counts[i := counts[i] + 1], ts[n..], set_, calls + [call])
  }

  lemma TryClaims(p: Parser, i: nat, count: nat, ts: seq<Token>, set_: Setter, calls: seq<Call>)
    requires ts != [] && GoodTokens(ts)
    ensures HasRoom(p, count) && Try(p, i, ts, set_, calls) != NoMatch <==> Claims(p, count, ts)
  {
    hide IsMatch, Names;
    if p.Opt? && ValidNames(p.names) && ts[0].type_ == Option {
      MatchNames(p.names, ts[0].text);
    }
  }

  /** The first of the parsers from `from` on that claims the tokens, `i`, gets them. */
  lemma {:induction false} FirstClaims(ps: seq<Parser>, from: nat, i: nat, counts: seq<nat>, ts: seq<Token>,
          set_: Setter, calls: seq<Call>)
    requires |counts| == |ps| && ts != [] && GoodTokens(ts) && from <= i <= |ps|
    requires forall j :: from <= j < i ==> !Claims(ps[j], counts[j], ts)
    requires i < |ps| ==> Claims(ps[i], counts[i], ts)
    ensures TryAll(ps, from, counts, ts, set_, calls)
        == if i == |ps| then NoMatch else Try(ps[i], i, ts, set_, calls)
    decreases i - from
  {
    hide Try, Claims, HasRoom;
    if from < |ps| {
      TryClaims(ps[from], from, counts[from], ts, set_, calls);
    }
    if from < i {
      FirstClaims(ps, from + 1, i, counts, ts, set_, calls);
    }
  }

  /** One round of parsing: the first parser that claims the next token gets it, and the token is unrecognised
      if and only if there is none. */
  lemma NextRound(ps: seq<Parser>, counts: seq<nat>, ts: seq<Token>, set_: Setter, calls: seq<Call>)
    requires |counts| == |ps| && ts != [] && GoodTokens(ts)
    ensures (forall i :: 0 <= i < |ps| ==> !Claims(ps[i], counts[i], ts)) ==>
              ParseFrom(ps, counts, ts, set_, calls) == Error(UnrecognisedToken(ts[0].text))
    ensures forall i :: 0 <= i < |ps| && Claims(ps[i], counts[i], ts)
                        && (forall j :: 0 <= j < i ==> !Claims(ps[j], counts[j], ts)) ==>
              ParseFrom(ps, counts, ts, set_, calls) == Given(ps, i, counts, ts, set_, calls)
  {
    hide TryAll, IsMatch, Names, Claims, Given;
    if forall i :: 0 <= i < |ps| ==> !Claims(ps[i], counts[i], ts) {
      FirstClaims(ps, 0, |ps|, counts, ts, set_, calls);
    }
    forall i | 0 <= i < |ps| && Claims(ps[i], counts[i], ts)
        && (forall j :: 0 <= j < i ==> !Claims(ps[j], counts[j], ts))
      ensures ParseFrom(ps, counts, ts, set_, calls) == Given(ps, i, counts, ts, set_, calls)
    {
      FirstClaims(ps, 0, i, counts, ts, set_, calls);
      GivenIs(ps, i, counts, ts, set_, calls);
    }
  }

  lemma GivenIs(ps: seq<Parser>, i: nat, counts: seq<nat>, ts: seq<Token>, set_: Setter, calls: seq<Call>)
    requires |counts| == |ps| && i < |ps| && ts != [] && GoodTokens(ts) && Claims(ps[i], counts[i], ts)
    requires TryAll(ps, 0, counts, ts, set_, calls) == Try(ps[i], i, ts, set_, calls)
    ensures ParseFrom(ps, counts, ts, set_, calls) == Given(ps, i, counts, ts, set_, calls)
  {
    hide TryAll, IsMatch, Names;
    if ps[i].Opt? && ValidNames(ps[i].names) && ts[0].type_ == Option {
      MatchNames(ps[i].names, ts[0].text);
    }
  }

  /** The call that parser `i` makes of the tokens, if it gets them. */
  function CallOf(p: Parser, i: nat, ts: seq<Token>): Call
    requires ts != []
  {
    Call(i, if p.Opt? && p.binding != Flag && |ts| > 1 then ts[..2] else ts[..1])
  }

  /** Parser `i` is the first that claims the tokens, and its value is set. */
  ghost predicate Takes(ps: seq<Parser>, i: nat, counts: seq<nat>, ts: seq<Token>, set_: Setter, calls: seq<Call>)
    requires |counts| == |ps|
  {
    && i < |ps| && ts != [] && Named(ps[i]) && Claims(ps[i], counts[i], ts)
    && (forall j :: 0 <= j < i ==> !Claims(ps[j], counts[j], ts))
    && (ps[i].Opt? && ps[i].binding != Flag ==> |ts| > 1 && ts[1].type_ == Argument)
    && set_(calls, CallOf(ps[i], i, ts)) != Rejected
    && (set_(calls, CallOf(ps[i], i, ts)) == ShortCircuit ==> ps[i].Arg?)
  }

  /** The calls of `plan` are made one after the other, and then `rest` is left of the tokens. */
  ghost predicate Planned(ps: seq<Parser>, counts: seq<nat>, ts: seq<Token>, plan: seq<Call>, rest: seq<Token>,
          set_: Setter, calls: seq<Call>)
    requires |counts| == |ps|
    decreases |plan|
  {
    if plan == [] then ts == rest
    else
      var call := plan[0];
      && Takes(ps, call.parser, counts, ts, set_, calls) && call == CallOf(ps[call.parser], call.parser, ts)
      && Planned(ps, counts[call.parser := counts[call.parser] + 1], ts[|call.used|..], plan[1..], rest, set_,
                 calls + [call])
  }

  /** How often each parser has been set after the calls. */
  ghost function After(counts: seq<nat>, plan: seq<Call>): (r: seq<nat>)
    ensures |r| == |counts|
    decreases |plan|
  {
    if plan == [] then counts
    else
      var i := plan[0].parser;
      After(if i < |counts| then counts[i := counts[i] + 1] else counts, plan[1..])
  }

  lemma TakenRound(ps: seq<Parser>, i: nat, counts: seq<nat>, ts: seq<Token>, set_: Setter, calls: seq<Call>)
    requires |counts| == |ps| && GoodTokens(ts) && Takes(ps, i, counts, ts, set_, calls)
    ensures var call := CallOf(ps[i], i, ts);
      && call.used != [] && call.used <= ts && GoodTokens(ts[|call.used|..])
      && ParseFrom(ps, counts, ts, set_, calls)
         == ParseFrom(ps, counts[i := counts[i] + 1], ts[|call.used|..], set_, calls + [call])
  {
    NextRound(ps, counts, ts, set_, calls);
    hide ParseFrom, Claims, Named;
    var call := CallOf(ps[i], i, ts);
    StillGood(ts, |call.used|);
  }

  /** Parsing goes on behind the calls of a plan. */
  lemma {:induction false} PlanFollowed(ps: seq<Parser>, counts: seq<nat>, ts: seq<Token>, plan: seq<Call>,
          rest: seq<Token>, set_: Setter, calls: seq<Call>)
    requires |counts| == |ps| && GoodTokens(ts) && Planned(ps, counts, ts, plan, rest, set_, calls)
    ensures GoodTokens(rest)
    ensures ParseFrom(ps, counts, ts, set_, calls) == ParseFrom(ps, After(counts, plan), rest, set_, calls + plan)
    decreases |plan|
  {
    hide ParseFrom, Takes;
    if plan == [] {
      assert calls + [] == calls;
    } else {
      var call := plan[0];
      TakenRound(ps, call.parser, counts, ts, set_, calls);
      assert call.parser < |ps| by { TakesWho(ps, call.parser, counts, ts, set_, calls); }
      PlanFollowed(ps, counts[call.parser := counts[call.parser] + 1], ts[|call.used|..], plan[1..], rest, set_,
          calls + [call]);
      assert calls + [call] + plan[1..] == calls + plan;
    }
  }

  lemma TakesWho(ps: seq<Parser>, i: nat, counts: seq<nat>, ts: seq<Token>, set_: Setter, calls: seq<Call>)
    requires |counts| == |ps| && Takes(ps, i, counts, ts, set_, calls)
    ensures i < |ps| && ts != []
  {
  }

  /** The parse makes the calls of `plan` and then ends: it is done if no token is left, and the next token is
      unrecognised if and only if no parser claims it. */
  ghost predicate EndsBehind(ps: seq<Parser>, counts: seq<nat>, ts: seq<Token>, plan: seq<Call>, rest: seq<Token>,
                             set_: Setter, calls: seq<Call>)
    requires |counts| == |ps| && GoodTokens(ts)
  {
    var o := ParseFrom(ps, counts, ts, set_, calls);
    var now := After(counts, plan);
    && (o.Done? <==> rest == [])
    && (o.Error? && o.error.UnrecognisedToken? <==>
          rest != [] && forall i :: 0 <= i < |ps| ==> !Claims(ps[i], now[i], rest))
    && (o.Error? && o.error.UnrecognisedToken? ==> rest != [] && o.error.text == rest[0].text)
    && (o.Done? ==> o.calls == calls + plan)
  }

  /** Every parse follows a plan as long as values are set; then it ends. */
  lemma {:induction false} PlanOf(ps: seq<Parser>, counts: seq<nat>, ts: seq<Token>, set_: Setter, calls: seq<Call>)
    returns (plan: seq<Call>, rest: seq<Token>)
    requires |counts| == |ps| && GoodTokens(ts)
    ensures Planned(ps, counts, ts, plan, rest, set_, calls)
    ensures EndsBehind(ps, counts, ts, plan, rest, set_, calls)
    decreases |ts|
  {
    hide Claims, Named, IsFor, Planned, EndsBehind, Takes, ParseFrom;
    plan, rest := [], ts;
    PlannedNone(ps, counts, ts, set_, calls);
    if first :| 0 <= first < |ps| && Takes(ps, first, counts, ts, set_, calls) {
      TakesWho(ps, first, counts, ts, set_, calls);
      var call := CallOf(ps[first], first, ts);
      TakenRound(ps, first, counts, ts, set_, calls);
      plan, rest := PlanOf(ps, counts[first := counts[first] + 1], ts[|call.used|..], set_, calls + [call]);
      PlannedOn(ps, first, counts, ts, plan, rest, set_, calls);
      EndsOn(ps, first, counts, ts, plan, rest, set_, calls);
      plan := [call] + plan;
    } else {
      EndsNow(ps, counts, ts, set_, calls);
    }
  }

  lemma EndsOn(ps: seq<Parser>, i: nat, counts: seq<nat>, ts: seq<Token>, plan: seq<Call>, rest: seq<Token>,
          set_: Setter, calls: seq<Call>)
    requires |counts| == |ps| && GoodTokens(ts) && Takes(ps, i, counts, ts, set_, calls)
    requires var call := CallOf(ps[i], i, ts);
      && call.used <= ts && GoodTokens(ts[|call.used|..])
      && EndsBehind(ps, counts[i := counts[i] + 1], ts[|call.used|..], plan, rest, set_, calls + [call])
      && After(counts, [call] + plan) == After(counts[i := counts[i] + 1], plan)
    ensures EndsBehind(ps, counts, ts, [CallOf(ps[i], i, ts)] + plan, rest, set_, calls)
  {
    TakenRound(ps, i, counts, ts, set_, calls);
    hide ParseFrom, Claims, Takes, After;
    var call := CallOf(ps[i], i, ts);
    assert calls + [call] + plan == calls + ([call] + plan);
  }

  /** No parser takes the tokens. */
  lemma EndsNow(ps: seq<Parser>, counts: seq<nat>, ts: seq<Token>, set_: Setter, calls: seq<Call>)
    requires |counts| == |ps| && GoodTokens(ts)
    requires forall i :: 0 <= i < |ps| ==> !Takes(ps, i, counts, ts, set_, calls)
    ensures EndsBehind(ps, counts, ts, [], ts, set_, calls)
  {
    hide Claims, Named, Takes, Given;
    assert calls + [] == calls;
    if ts == [] {
      NothingLeft(ps, counts, set_, calls);
    } else {
      NextRound(ps, counts, ts, set_, calls);
      hide ParseFrom;
      if i :| 0 <= i < |ps| && Claims(ps[i], counts[i], ts) {
        var first := FirstOne(ps, counts, ts, i);
        NotTaken(ps, first, counts, ts, set_, calls);
      }
    }
  }

  lemma {:induction false} FirstOne(ps: seq<Parser>, counts: seq<nat>, ts: seq<Token>, i: nat) returns (first: nat)
    requires |counts| == |ps| && i < |ps| && Claims(ps[i], counts[i], ts)
    ensures first <= i && Claims(ps[first], counts[first], ts)
    ensures forall j :: 0 <= j < first ==> !Claims(ps[j], counts[j], ts)
    decreases i
  {
    hide Claims;
    first := i;
    if j :| 0 <= j < i && Claims(ps[j], counts[j], ts) {
      first := FirstOne(ps, counts, ts, j);
    }
  }

  lemma PlannedOn(ps: seq<Parser>, i: nat, counts: seq<nat>, ts: seq<Token>, plan: seq<Call>, rest: seq<Token>,
          set_: Setter, calls: seq<Call>)
    requires |counts| == |ps| && Takes(ps, i, counts, ts, set_, calls)
    requires var call := CallOf(ps[i], i, ts);
      && |call.used| <= |ts|
      && Planned(ps, counts[i := counts[i] + 1], ts[|call.used|..], plan, rest, set_, calls + [call])
    ensures var more := [CallOf(ps[i], i, ts)] + plan;
      && Planned(ps, counts, ts, more, rest, set_, calls)
      && After(counts, more) == After(counts[i := counts[i] + 1], plan)
  {
    TakesWho(ps, i, counts, ts, set_, calls);
    hide Takes;
    var more := [CallOf(ps[i], i, ts)] + plan;
    assert more[1..] == plan;
  }

  lemma PlannedNone(ps: seq<Parser>, counts: seq<nat>, ts: seq<Token>, set_: Setter, calls: seq<Call>)
    requires |counts| == |ps|
    ensures Planned(ps, counts, ts, [], ts, set_, calls)
  {
  }

  /** The parser that gets the tokens ends the parse without taking them as unrecognised. */
  lemma NotTaken(ps: seq<Parser>, i: nat, counts: seq<nat>, ts: seq<Token>, set_: Setter, calls: seq<Call>)
    requires |counts| == |ps| && GoodTokens(ts) && i < |ps| && ts != [] && Claims(ps[i], counts[i], ts)
    requires forall j :: 0 <= j < i ==> !Claims(ps[j], counts[j], ts)
    requires !Takes(ps, i, counts, ts, set_, calls)
    ensures var o := Given(ps, i, counts, ts, set_, calls);
      o.StoppedAt? || (o.Error? && !o.error.UnrecognisedToken?)
  {
    hide Claims, Named, ParseFrom;
  }

  /** A command line is accepted if and only if its tokens can be taken one after the other to the last. */
  lemma DoneIff(ps: seq<Parser>, args: seq<string>, set_: Setter, done: seq<Call>)
    ensures GoodTokens(AllTokens(args))
    ensures ParseFrom(ps, Zeros(|ps|), AllTokens(args), set_, []) == Done(done)
            <==> Planned(ps, Zeros(|ps|), AllTokens(args), done, [], set_, [])
  {
    hide ParseFrom, Planned, AllTokens;
    TokensAreGood(args);
    var ts := AllTokens(args);
    assert [] + done == done;
    if Planned(ps, Zeros(|ps|), ts, done, [], set_, []) {
      PlanFollowed(ps, Zeros(|ps|), ts, done, [], set_, []);
      NothingLeft(ps, After(Zeros(|ps|), done), set_, done);
    }
    var plan, rest := PlanOf(ps, Zeros(|ps|), ts, set_, []);
    assert [] + plan == plan;
  }

  lemma NothingLeft(ps: seq<Parser>, counts: seq<nat>, set_: Setter, calls: seq<Call>)
    requires |counts| == |ps|
    ensures ParseFrom(ps, counts, [], set_, calls) == Done(calls)
  {
  }

  /** When the calls of `plan` have been made, no parser that may still be set is for the next token. */
  ghost predicate Unclaimed(ps: seq<Parser>, ts: seq<Token>, plan: seq<Call>, rest: seq<Token>, set_: Setter,
          text: string)
  {
    && Planned(ps, Zeros(|ps|), ts, plan, rest, set_, [])
    && rest != [] && rest[0].text == text
    && forall i :: 0 <= i < |ps| ==> !Claims(ps[i], After(Zeros(|ps|), plan)[i], rest)
  }

  /** A token is unrecognised if and only if that happens. */
  lemma UnrecognisedIff(ps: seq<Parser>, args: seq<string>, set_: Setter, text: string)
    ensures GoodTokens(AllTokens(args))
    ensures ParseFrom(ps, Zeros(|ps|), AllTokens(args), set_, []) == Error(UnrecognisedToken(text))
            <==> exists plan, rest :: Unclaimed(ps, AllTokens(args), plan, rest, set_, text)
  {
    hide ParseFrom, Planned, AllTokens, Claims;
    TokensAreGood(args);
    var ts := AllTokens(args);
    if plan, rest :| Unclaimed(ps, ts, plan, rest, set_, text) {
      PlanFollowed(ps, Zeros(|ps|), ts, plan, rest, set_, []);
      NextRound(ps, After(Zeros(|ps|), plan), rest, set_, [] + plan);
    }
    var plan, rest := PlanOf(ps, Zeros(|ps|), ts, set_, []);
    if ParseFrom(ps, Zeros(|ps|), ts, set_, []) == Error(UnrecognisedToken(text)) {
      assert Unclaimed(ps, ts, plan, rest, set_, text);
    }
  }

  /** Of the parsers, `i` alone is named by the token, and all options have proper names. */
  ghost predicate OnlyFor(ps: seq<Parser>, i: nat, token: string) {
    && i < |ps| && ps[i].Opt? && Names(ps[i].names, token)
    && (forall j :: 0 <= j < |ps| ==> Named(ps[j]))
    && forall j :: 0 <= j < |ps| && j != i && ps[j].Opt? ==> !Names(ps[j].names, token)
  }

  lemma OnlyTakes(ps: seq<Parser>, i: nat, counts: seq<nat>, ts: seq<Token>, set_: Setter, calls: seq<Call>)
    requires |counts| == |ps| && ts != [] && ts[0].type_ == Option && OnlyFor(ps, i, ts[0].text)
    requires counts[i] == 0 && (ps[i].binding != Flag ==> |ts| > 1 && ts[1].type_ == Argument)
    requires set_(calls, CallOf(ps[i], i, ts)) == Accepted
    ensures Takes(ps, i, counts, ts, set_, calls)
  {
    hide Names, Named;
  }

  function Tokens(chars: string): (ts: seq<Token>)
    ensures |ts| == |chars| && forall k :: 0 <= k < |chars| ==> ts[k] == Token(Option, [chars[k]])
  {
    seq(|chars|, k requires 0 <= k < |chars| => Token(Option, [chars[k]]))
  }

  /** One call for each character, by the parser of its flag. */
  function FlagCalls(chars: string, parsers: seq<nat>): (calls: seq<Call>)
    requires |parsers| == |chars|
    ensures |calls| == |chars|
    ensures forall k :: 0 <= k < |chars| ==> calls[k] == Call(parsers[k], [Token(Option, [chars[k]])])
  {
    seq(|chars|, k requires 0 <= k < |chars| => Call(parsers[k], [Token(Option, [chars[k]])]))
  }

  /** Each character names the flag of its own parser alone. */
  ghost predicate OwnFlags(ps: seq<Parser>, chars: string, parsers: seq<nat>) {
    && |parsers| == |chars|
    && (forall k :: 0 <= k < |chars| ==>
          OnlyFor(ps, parsers[k], [chars[k]]) && ps[parsers[k]].binding == Flag)
    && forall j, k :: 0 <= j < k < |chars| ==> parsers[j] != parsers[k]
  }

  lemma {:induction false} FlagsPlanned(ps: seq<Parser>, counts: seq<nat>, chars: string, parsers: seq<nat>, k: nat,
          set_: Setter)
    requires |counts| == |ps| && OwnFlags(ps, chars, parsers) && k <= |chars|
    requires forall j :: k <= j < |chars| ==> parsers[j] < |ps| && counts[parsers[j]] == 0
    requires var plan := FlagCalls(chars, parsers); forall j :: 0 <= j < |plan| ==> set_(plan[..j], plan[j]) == Accepted
    ensures var plan := FlagCalls(chars, parsers);
      Planned(ps, counts, Tokens(chars)[k..], plan[k..], [], set_, plan[..k])
    decreases |chars| - k
  {
    hide OnlyFor, Takes;
    var plan, ts := FlagCalls(chars, parsers), Tokens(chars);
    if k < |chars| {
      var i := parsers[k];
      OnlyForWho(ps, i, [chars[k]]);
      assert ts[k..][0] == ts[k] && ts[k..][..1] == [ts[k]] && ts[k..][1..] == ts[k + 1..];
      assert plan[k..][0] == plan[k] && plan[k..][1..] == plan[k + 1..] && plan[..k] + [plan[k]] == plan[..k + 1];
      assert CallOf(ps[i], i, ts[k..]) == plan[k];
      OnlyTakes(ps, i, counts, ts[k..], set_, plan[..k]);
      var more := counts[i := counts[i] + 1];
      forall j | k + 1 <= j < |chars| ensures parsers[j] < |ps| && more[parsers[j]] == 0 {
        OnlyForWho(ps, parsers[j], [chars[j]]);
        assert parsers[j] != parsers[k];
      }
      FlagsPlanned(ps, more, chars, parsers, k + 1, set_);
    }
  }

  lemma OnlyForWho(ps: seq<Parser>, i: nat, token: string)
    requires OnlyFor(ps, i, token)
    ensures i < |ps| && ps[i].Opt?
  {
  }

  lemma ShortTokens(chars: string)
    requires |chars| > 1 && chars[0] != '-' && forall k :: 0 <= k < |chars| ==> chars[k] !in " :="
    ensures AllTokens(["-" + chars]) == Tokens(chars)
  {
    var arg := "-" + chars;
    var i := FindFirstSeparator(arg);
    assert forall k :: 0 <= k < |arg| ==> arg[k] == if k == 0 then '-' else chars[k - 1];
    assert i == |arg|;
    assert TokensOf(arg) == ShortOptions(arg, 1);
    assert ShortOptions(arg, 1) == Tokens(chars);
    assert AllTokens([arg]) == TokensOf(arg) + AllTokens([]);
  }

  /** A dash and several characters, each of which names the flag of its own parser alone and is accepted there:
      every flag is set, in order. */
  lemma FlagsAccepted(ps: seq<Parser>, chars: string, parsers: seq<nat>, set_: Setter)
    requires |chars| > 1 && chars[0] != '-' && forall k :: 0 <= k < |chars| ==> chars[k] !in " :="
    requires OwnFlags(ps, chars, parsers)
    requires var plan := FlagCalls(chars, parsers); forall j :: 0 <= j < |plan| ==> set_(plan[..j], plan[j]) == Accepted
    ensures GoodTokens(AllTokens(["-" + chars]))
    ensures ParseFrom(ps, Zeros(|ps|), AllTokens(["-" + chars]), set_, []) == Done(FlagCalls(chars, parsers))
  {
    hide ParseFrom, Planned, OnlyFor;
    var plan := FlagCalls(chars, parsers);
    forall j | 0 <= j < |chars| ensures parsers[j] < |ps| {
      OnlyForWho(ps, parsers[j], [chars[j]]);
    }
    FlagsPlanned(ps, Zeros(|ps|), chars, parsers, 0, set_);
    assert Tokens(chars)[0..] == Tokens(chars) && plan[0..] == plan && plan[..0] == [];
    ShortTokens(chars);
    DoneIff(ps, ["-" + chars], set_, plan);
  }

  /** The option that is named this way with a value behind it, as two arguments or as one with a separator. */
  predicate WithValue(option: string, value: string, args: seq<string>) {
    && option != "" && option[0] == '-' && (forall k :: 0 <= k < |option| ==> option[k] !in " :=")
    && (|| args in {[option + " " + value], [option + ":" + value], [option + "=" + value]}
        || (args == [option, value] && value != "" && value[0] != '-' && (|option| <= 2 || option[1] == '-')))
  }

  lemma ValueTokens(option: string, value: string, args: seq<string>)
    requires WithValue(option, value, args)
    ensures AllTokens(args) == [Token(Option, option), Token(Argument, value)]
  {
    if |args| == 1 {
      var sep :| sep in " :=" && args == [option + [sep] + value];
      SeparatedTokens(option, sep, value);
      assert AllTokens(args) == TokensOf(args[0]) + AllTokens([]);
    } else {
      assert FindFirstSeparator(option) == |option|;
      assert args[1..] == [value] && [value][1..] == [];
      assert AllTokens([value]) == TokensOf(value) + AllTokens([]);
      assert TokensOf(option) == [Token(Option, option)] && TokensOf(value) == [Token(Argument, value)];
    }
  }

  lemma SeparatedTokens(option: string, sep: char, value: string)
    requires option != "" && option[0] == '-' && (forall k :: 0 <= k < |option| ==> option[k] !in " :=") && sep in " :="
    ensures TokensOf(option + [sep] + value) == [Token(Option, option), Token(Argument, value)]
  {
    var arg := option + [sep] + value;
    var i := FindFirstSeparator(arg);
    assert arg[|option|] == sep && forall k :: 0 <= k < |option| ==> arg[k] == option[k];
    assert i == |option|;
    assert arg[..i] == option && arg[i + 1..] == value;
  }

  /** An option that takes a value, with one behind it that is accepted: the value is set. */
  lemma ValueAccepted(ps: seq<Parser>, i: nat, option: string, value: string, args: seq<string>, set_: Setter)
    requires WithValue(option, value, args) && OnlyFor(ps, i, option) && ps[i].binding != Flag
    requires set_([], Call(i, [Token(Option, option), Token(Argument, value)])) == Accepted
    ensures GoodTokens(AllTokens(args))
    ensures ParseFrom(ps, Zeros(|ps|), AllTokens(args), set_, [])
         == Done([Call(i, [Token(Option, option), Token(Argument, value)])])
  {
    hide ParseFrom, OnlyFor, Takes;
    var ts := [Token(Option, option), Token(Argument, value)];
    var call := Call(i, ts);
    ValueTokens(option, value, args);
    OnlyForWho(ps, i, option);
    assert ts[..2] == ts && CallOf(ps[i], i, ts) == call && ts[|call.used|..] == [] && [call][1..] == [];
    OnlyTakes(ps, i, Zeros(|ps|), ts, set_, []);
    assert Planned(ps, Zeros(|ps|), ts, [call], [], set_, []);
    DoneIff(ps, args, set_, [call]);
  }
}
