/** The generator objects: each yields exactly the elements of its expression, one at a time. */
module GeneratorObjects {
  import opened Generators
  import opened Wrappers

  /** Which generator class an object is of, with the fields its methods never change. */
  datatype Kind =
    | SingleValueGenerator(value: Value)
    | FixedValuesGenerator(values: seq<Value>)
    | RangeGenerator(end: int, step: int)
    | TakeGenerator(target: nat)
    | FilterGenerator(pred: Value -> bool)
    | RepeatGenerator(repeats: nat)
    | MapGenerator(f: Value -> Value)
    | ChunkGenerator(size: nat)
    | Generators

  /** The elements of generators that follow each other. */
  ghost function Following(gs: seq<GeneratorWrapper>): seq<Value>
    reads set g | g in gs :: g.generator
  {
    if gs == [] then [] else gs[0].generator.left + Following(gs[1..])
  }

  /** What a repetition has left while it still reads the generator below, of which `s` is left: every
      further repetition gives the elements as they were read. */
  function FirstPassLeft(repeats: nat, saved: seq<Value>, read: nat, uses: Uses, s: seq<Value>): (left: seq<Value>)
    requires repeats > 0 && read <= |saved|
    ensures s != [] ==> left != [] && left[0] == s[0]
  {
    s + Times(repeats - 1, saved[..|saved| - read] + AsRead(uses, s))
  }

  /** What a repetition has left in its pass `repeat` over the saved elements. */
  function LaterLeft(repeats: nat, repeat: nat, saved: seq<Value>, index: nat): (left: seq<Value>)
    requires index < |saved|
    ensures if repeat < repeats then left != [] && left[0] == saved[index] else left == []
  {
    if repeat < repeats then saved[index..] + Times(repeats - repeat - 1, saved) else []
  }

  /** Reading an element once more saves it once more. */
  lemma FirstPassRead(repeats: nat, saved: seq<Value>, read: nat, uses: Uses, s: seq<Value>)
    requires repeats > 0 && s != [] && read <= |saved| && saved[|saved| - read..] == Copies(read, s[0])
    ensures var more := saved + [s[0]];
      && more[|more| - (read + 1)..] == Copies(read + 1, s[0])
      && FirstPassLeft(repeats, more, read + 1, uses, s) == FirstPassLeft(repeats, saved, read, uses, s)
  {
    var more := saved + [s[0]];
    assert more[|more| - (read + 1)..] == saved[|saved| - read..] + [s[0]];
    assert more[..|more| - (read + 1)] == saved[..|saved| - read];
  }

  lemma FirstRead(uses: Uses, saved: seq<Value>, read: nat, s: seq<Value>)
    requires s != [] && read <= |saved| && read == uses(s[0]) && saved[|saved| - read..] == Copies(read, s[0])
    ensures saved[..|saved| - read] + AsRead(uses, s) == saved + AsRead(uses, s[1..])
  {
    assert saved == saved[..|saved| - read] + Copies(read, s[0]);
    assert saved[..|saved| - read] + (Copies(read, s[0]) + AsRead(uses, s[1..]))
        == saved[..|saved| - read] + Copies(read, s[0]) + AsRead(uses, s[1..]);
  }

  /** Moving on while the generator below is still read. */
  lemma FirstPassStep(repeats: nat, saved: seq<Value>, read: nat, uses: Uses, s: seq<Value>)
    requires repeats > 0 && s != [] && 0 < read <= |saved| && read == uses(s[0])
        && saved[|saved| - read..] == Copies(read, s[0])
    ensures var left := FirstPassLeft(repeats, saved, read, uses, s);
      && left != []
      && left[1..] == (if s[1..] == [] then LaterLeft(repeats, 1, saved, 0)
          else FirstPassLeft(repeats, saved, 0, uses, s[1..]))
      && (left[1..] != [] <==> s[1..] != [] || repeats > 1)
  {
    hide AsRead;
    FirstRead(uses, saved, read, s);
    assert saved[..|saved| - 0] == saved == saved[0..];
    var pass := saved + AsRead(uses, s[1..]);
    assert (s + Times(repeats - 1, pass))[1..] == s[1..] + Times(repeats - 1, pass);
    if s[1..] == [] {
      NothingRead(uses);
      assert pass == saved;
    }
  }

  lemma NothingRead(uses: Uses)
    ensures AsRead(uses, []) == []
  {
  }

  /** Moving on within the saved elements. */
  lemma LaterStep(repeats: nat, repeat: nat, saved: seq<Value>, index: nat)
    requires index < |saved| && repeat < repeats
    ensures var left := LaterLeft(repeats, repeat, saved, index);
      && left != [] && left[0] == saved[index]
      && left[1..] == (if index + 1 == |saved| then LaterLeft(repeats, repeat + 1, saved, 0)
          else LaterLeft(repeats, repeat, saved, index + 1))
      && (left[1..] != [] <==> index + 1 < |saved| || repeat + 1 < repeats)
  {
    assert saved[0..] == saved;
    assert (saved[index..] + Times(repeats - repeat - 1, saved))[1..]
        == saved[index + 1..] + Times(repeats - repeat - 1, saved);
  }

  ghost function Heights(gs: seq<GeneratorWrapper>): (h: nat)
    ensures forall i :: 0 <= i < |gs| ==> gs[i].generator.height <= h
  {
    if gs == [] then 0 else gs[0].generator.height + Heights(gs[1..])
  }

  class Generator {
    const kind: Kind
    /** The generators this one owns. */
    const subs: seq<GeneratorWrapper>
    /** How often the consumer reads each element before moving on. */
    ghost const uses: Uses
    ghost const height: nat
    ghost const repr: set<object>

    /** The fields of the classes: the number of elements returned, the position in a list of values or of
        generators or in the saved elements; the current number of a range; the saved element of a map; the
        saved elements of a repetition or the current chunk; and the current repetition. */
    var index: nat
    var current: int
    var cache: Value
    var saved: seq<Value>
    var repeat: nat

    /** The elements left, the current one first; and how often it has been read. */
    ghost var left: seq<Value>
    ghost var read: nat

    constructor (kind: Kind, subs: seq<GeneratorWrapper>, ghost below: set<object>, ghost uses: Uses)
      requires forall i :: 0 <= i < |subs| ==> subs[i].generator in subs[i].generator.repr
      requires forall i, j :: 0 <= i < j < |subs| ==> subs[i].Repr() !! subs[j].Repr()
      requires if kind.SingleValueGenerator? || kind.FixedValuesGenerator? || kind.RangeGenerator? then subs == []
               else if kind.Generators? then true else |subs| == 1
      requires forall v :: uses(v) > 0
      requires forall i :: 0 <= i < |subs| ==> subs[i].Repr() <= below
      ensures this.kind == kind && this.subs == subs && this.uses == uses && Owns()
      ensures repr == {this} + below
      ensures index == 0 && saved == [] && repeat == 0 && left == [] && read == 0
    {
      this.kind := kind;
      this.subs := subs;
      this.uses := uses;
      height := Heights(subs) + 1;
      repr := {this} + below;
      index := 0;
      current := 0;
      cache := Atom(0);
      saved := [];
      repeat := 0;
      left := [];
      read := 0;
    }

    /** The generators below are owned by this one alone, and have the kind's number. */
    ghost predicate Owns() {
      && this in repr
      && (forall i :: 0 <= i < |subs| ==>
            subs[i].Repr() <= repr && this !in subs[i].Repr() && subs[i].generator in subs[i].Repr()
                && subs[i].generator.height < height)
      && (forall i, j :: 0 <= i < j < |subs| ==> subs[i].Repr() !! subs[j].Repr())
      && (if kind.SingleValueGenerator? || kind.FixedValuesGenerator? || kind.RangeGenerator? then subs == []
          else if kind.Generators? then true else |subs| == 1)
      && (forall v :: uses(v) > 0)
    }

    /** The objects of the generators below. */
    ghost function Below(): (objects: set<object>)
      ensures Owns() ==> objects <= repr && this !in objects
      ensures Owns() ==> forall i :: 0 <= i < |subs| ==> subs[i].generator in objects && subs[i].Repr() <= objects
    {
      if Owns() then set i, o | 0 <= i < |subs| && o in subs[i].Repr() :: o else {}
    }

    ghost predicate SubsValid()
      reads Below()
      decreases height, 0
    {
      && Owns()
      && forall i :: 0 <= i < |subs| ==> subs[i].Valid()
    }

    ghost predicate Valid()
      reads this, repr
      decreases height, 1
    {
      Owns() && SubsValid() && Matches()
    }

    /** The fields agree with what is left of the generators below. */
    ghost predicate Matches()
      requires Owns()
      reads this, repr
    {
      match kind
      case SingleValueGenerator(value) => left == [value] || left == []
      case FixedValuesGenerator(values) => index <= |values| && left == values[index..]
      case RangeGenerator(end, step) => step != 0 && left == RangeFrom(current, end, step)
      case TakeGenerator(target) => ValidTake(target, subs[0].generator)
      case FilterGenerator(pred) => ValidFilter(pred, subs[0].generator)
      case RepeatGenerator(repeats) => ValidRepeat(repeats, subs[0].generator)
      case MapGenerator(f) => ValidMap(f, subs[0].generator)
      case ChunkGenerator(size) => ValidChunk(size, subs[0].generator)
      case Generators => ValidGenerators()
    }

    ghost predicate ValidTake(target: nat, sub: Generator)
      reads this, sub
    {
      && index <= target
      && left == Prefix(target - index, sub.left)
      && (left != [] ==> read == sub.read && sub.uses == uses)
    }

    ghost predicate ValidFilter(pred: Value -> bool, sub: Generator)
      reads this, sub
    {
      && left == Kept(pred, sub.left)
      && (left != [] ==> pred(sub.left[0]) && sub.read == read + 1)
      && sub.uses == FilterUses(pred, uses)
    }

    ghost predicate ValidRepeat(repeats: nat, sub: Generator)
      reads this, sub
    {
      if repeat == 0 then
        && repeats > 0 && sub.left != [] && index == 0
        && read == sub.read <= |saved| && sub.uses == uses
        && saved[|saved| - read..] == Copies(read, sub.left[0])
        && left == FirstPassLeft(repeats, saved, read, uses, sub.left)
      else
        && index < |saved|
        && left == LaterLeft(repeats, repeat, saved, index)
    }

    ghost predicate ValidMap(f: Value -> Value, sub: Generator)
      reads this, sub
    {
      && left == Mapped(f, sub.left)
      && (left != [] ==> cache == f(sub.left[0]) && sub.read == 1)
      && sub.uses == ONCE
    }

    ghost predicate ValidChunk(size: nat, sub: Generator)
      reads this, sub
    {
      && size > 0 && sub.uses == ONCE
      && (left != [] ==>
            && sub.left != [] && sub.read == 1
            && left == [List(saved)] + Blocks(size, sub.left[1..]))
    }

    ghost predicate ValidGenerators()
      reads this, repr
      requires Owns()
    {
      && index <= |subs|
      && left == Following(subs[index..])
      && (index < |subs| ==>
          subs[index].generator.left != [] && subs[index].generator.read == read && subs[index].generator.uses == uses)
      && (forall i :: index < i < |subs| ==>
                      subs[i].generator.left != [] && subs[i].generator.read == 0 && subs[i].generator.uses == uses)
    }

    /** Reads the current element of the generator at `i`. */
    method GetSub(i: nat) returns (v: Value)
      requires SubsValid() && i < |subs| && subs[i].generator.left != []
          && subs[i].generator.read < subs[i].generator.uses(subs[i].generator.left[0])
      modifies subs[i].Repr()
      ensures SubsValid() && subs[i].generator.left == old(subs[i].generator.left) && v == subs[i].generator.left[0]
          && subs[i].generator.read == old(subs[i].generator.read) + 1
      decreases height, 0, 0
    {
      v := subs[i].Get();
    }

    /** Moves the generator at `i` on. */
    method NextSub(i: nat) returns (ok: bool)
      requires SubsValid() && i < |subs| && subs[i].generator.left != []
          && subs[i].generator.read == subs[i].generator.uses(subs[i].generator.left[0])
      modifies subs[i].Repr()
      ensures SubsValid() && subs[i].generator.left == old(subs[i].generator.left)[1..]
          && ok == (subs[i].generator.left != []) && (ok ==> subs[i].generator.read == 0)
      decreases height, 0, 0
    {
      ok := subs[i].CountedNext();
    }

    method GetTake() returns (v: Value)
      requires Valid() && left != [] && read < uses(left[0]) && kind.TakeGenerator?
      modifies repr
      ensures Valid() && left == old(left) && v == left[0] && read == old(read) + 1
      decreases height, 1
    {
      hide Below, GeneratorWrapper.Valid, ValidFilter, ValidRepeat, ValidMap, ValidChunk, ValidGenerators;
      v := GetSub(0);
      read := read + 1;
    }

    method GetFilter() returns (v: Value)
      requires Valid() && left != [] && read < uses(left[0]) && kind.FilterGenerator?
      modifies repr
      ensures Valid() && left == old(left) && v == left[0] && read == old(read) + 1
      decreases height, 1
    {
      hide Below, GeneratorWrapper.Valid, ValidTake, ValidRepeat, ValidMap, ValidChunk, ValidGenerators;
      v := GetSub(0);
      read := read + 1;
    }

    /** While the generator below is still read, every element read is saved. */
    method GetRepeat() returns (v: Value)
      requires Valid() && left != [] && read < uses(left[0]) && kind.RepeatGenerator?
      modifies repr
      ensures Valid() && left == old(left) && v == left[0] && read == old(read) + 1
      decreases height, 1
    {
      hide Below, GeneratorWrapper.Valid, ValidTake, ValidFilter, ValidMap, ValidChunk, ValidGenerators, FirstPassLeft,
          LaterLeft;
      if repeat == 0 {
        v := GetSub(0);
        FirstPassRead(kind.repeats, saved, read, uses, subs[0].generator.left);
        saved := saved + [v];
      } else {
        LaterStep(kind.repeats, repeat, saved, index);
        v := saved[index];
      }
      read := read + 1;
    }

    method GetConcat() returns (v: Value)
      requires Valid() && left != [] && read < uses(left[0]) && kind.Generators?
      modifies repr
      ensures Valid() && left == old(left) && v == left[0] && read == old(read) + 1
      decreases height, 1
    {
      hide Below, GeneratorWrapper.Valid, ValidTake, ValidFilter, ValidRepeat, ValidMap, ValidChunk;
      v := GetSub(index);
      read := read + 1;
    }

    /** The current element. */
    method Get() returns (v: Value)
      requires Valid() && left != [] && read < uses(left[0])
      modifies repr
      ensures Valid() && left == old(left) && v == left[0] && read == old(read) + 1
      decreases height, 2
    {
      match kind
      case SingleValueGenerator(value) => v := value; read := read + 1;
      case FixedValuesGenerator(values) => v := values[index]; read := read + 1;
      case RangeGenerator(_, _) => v := Atom(current); read := read + 1;
      case TakeGenerator(_) => v := GetTake();
      case FilterGenerator(_) => v := GetFilter();
      case RepeatGenerator(_) => v := GetRepeat();
      case MapGenerator(_) => v := cache; read := read + 1;
      case ChunkGenerator(_) => v := List(saved); read := read + 1;
      case Generators => v := GetConcat();
    }

    method NextTake() returns (ok: bool)
      requires Valid() && left != [] && read == uses(left[0]) && kind.TakeGenerator?
      modifies repr
      ensures Valid() && left == old(left)[1..] && ok == (left != []) && (ok ==> read == 0)
      decreases height, 1
    {
      hide Below, GeneratorWrapper.Valid, ValidFilter, ValidRepeat, ValidMap, ValidChunk, ValidGenerators;
      index := index + 1;
      if index >= kind.target {
        ok := false;
      } else {
        ok := NextSub(0);
        if !ok {
          index := kind.target;
        }
      }
      left := left[1..];
      read := 0;
    }

    /** Looks for the next element the filter keeps. */
    method SeekFilter(pred: Value -> bool) returns (ok: bool)
      requires Owns() && SubsValid() && |subs| == 1
      requires var sub := subs[0].generator;
        sub.left != [] && sub.uses == FilterUses(pred, uses) && sub.read == sub.uses(sub.left[0])
      modifies subs[0].Repr()
      ensures SubsValid() && ok == (subs[0].generator.left != [])
      ensures Kept(pred, subs[0].generator.left) == Kept(pred, old(subs[0].generator.left)[1..])
      ensures ok ==> pred(subs[0].generator.left[0]) && subs[0].generator.read == 1
      decreases height, 0, 1
    {
      ok := NextSub(0);
      if ok {
        var v := GetSub(0);
        while !pred(v)
          invariant SubsValid() && subs[0].generator.left != [] && subs[0].generator.read == 1
              && v == subs[0].generator.left[0]
          invariant Kept(pred, subs[0].generator.left) == Kept(pred, old(subs[0].generator.left)[1..])
          decreases |subs[0].generator.left|
        {
          ok := NextSub(0);
          if !ok { break; }
          v := GetSub(0);
        }
      }
    }

    method NextFilter() returns (ok: bool)
      requires Valid() && left != [] && read == uses(left[0]) && kind.FilterGenerator?
      modifies repr
      ensures Valid() && left == old(left)[1..] && ok == (left != []) && (ok ==> read == 0)
      decreases height, 1
    {
      hide Below, GeneratorWrapper.Valid, ValidTake, ValidRepeat, ValidMap, ValidChunk, ValidGenerators;
      ok := SeekFilter(kind.pred);
      left := left[1..];
      read := 0;
    }

    method NextRepeat() returns (ok: bool)
      requires Valid() && left != [] && read == uses(left[0]) && kind.RepeatGenerator?
      modifies repr
      ensures Valid() && left == old(left)[1..] && ok == (left != []) && (ok ==> read == 0)
      decreases height, 1
    {
      hide Below, GeneratorWrapper.Valid, ValidTake, ValidFilter, ValidMap, ValidChunk, ValidGenerators, FirstPassLeft,
          LaterLeft;
      if repeat == 0 {
        FirstPassRead(kind.repeats, saved, read, uses, subs[0].generator.left);
        FirstPassStep(kind.repeats, saved, read, uses, subs[0].generator.left);
        ok := NextSub(0);
        if !ok {
          repeat := repeat + 1;
        }
      } else {
        LaterStep(kind.repeats, repeat, saved, index);
        index := index + 1;
        if index == |saved| {
          index := 0;
          repeat := repeat + 1;
        }
      }
      ok := repeat < kind.repeats;
      left := left[1..];
      read := 0;
    }

    method NextMap() returns (ok: bool)
      requires Valid() && left != [] && read == uses(left[0]) && kind.MapGenerator?
      modifies repr
      ensures Valid() && left == old(left)[1..] && ok == (left != []) && (ok ==> read == 0)
      decreases height, 1
    {
      hide Below, GeneratorWrapper.Valid, ValidTake, ValidFilter, ValidRepeat, ValidChunk, ValidGenerators;
      ok := NextSub(0);
      if ok {
        var v := GetSub(0);
        cache := kind.f(v);
      }
      left := left[1..];
      read := 0;
    }

    method NextChunk() returns (ok: bool)
      requires Valid() && left != [] && read == uses(left[0]) && kind.ChunkGenerator?
      modifies repr
      ensures Valid() && left == old(left)[1..] && ok == (left != []) && (ok ==> read == 0)
      decreases height, 1
    {
      hide Below, GeneratorWrapper.Valid, ValidTake, ValidFilter, ValidRepeat, ValidMap, ValidGenerators;
      saved := [];
      ghost var later := subs[0].generator.left[1..];
      ok := true;
      var idx := 0;
      while idx < kind.size
        invariant idx <= kind.size && idx <= |later| && saved == later[..idx]
        invariant SubsValid() && subs[0].generator.left != [] && subs[0].generator.read == 1
            && subs[0].generator.left[1..] == later[idx..]
        invariant left == old(left) && index == old(index)
      {
        ok := NextSub(0);
        if !ok { break; }
        var v := GetSub(0);
        saved := saved + [v];
        idx := idx + 1;
      }
      left := left[1..];
      read := 0;
    }

    method NextConcat() returns (ok: bool)
      requires Valid() && left != [] && read == uses(left[0]) && kind.Generators?
      modifies repr
      ensures Valid() && left == old(left)[1..] && ok == (left != []) && (ok ==> read == 0)
      decreases height, 1
    {
      hide Below, GeneratorWrapper.Valid, ValidTake, ValidFilter, ValidRepeat, ValidMap, ValidChunk;
      assert subs[index..][1..] == subs[index + 1..];
      ghost var later := Following(subs[index + 1..]);
      ok := NextSub(index);
      assert Following(subs[index + 1..]) == later;
      ok := PassOver(ok);
    }

    /** Goes to the next generator when the current one has no element left. */
    method PassOver(success: bool) returns (ok: bool)
      requires Owns() && SubsValid() && kind.Generators? && index < |subs| && left != []
      requires forall i :: index <= i < |subs| ==> subs[i].generator.uses == uses
      requires forall i :: index < i < |subs| ==> subs[i].generator.left != [] && subs[i].generator.read == 0
      requires left[1..] == subs[index].generator.left + Following(subs[index + 1..])
      requires success == (subs[index].generator.left != []) && (success ==> subs[index].generator.read == 0)
      modifies this
      ensures Valid() && left == old(left)[1..] && ok == (left != []) && (ok ==> read == 0)
    {
      hide Below, GeneratorWrapper.Valid, ValidTake, ValidFilter, ValidRepeat, ValidMap, ValidChunk;
      assert subs[index..][1..] == subs[index + 1..];
      if !success {
        index := index + 1;
      }
      ok := index < |subs|;
      left := left[1..];
      read := 0;
    }

    /** The rest of building a filter: looks for the first element it keeps. */
    method StartFilter() returns (ok: bool)
      requires Owns() && SubsValid() && kind.FilterGenerator? && read == 0
      requires var sub := subs[0].generator; sub.left != [] && sub.read == 0 && sub.uses == FilterUses(kind.pred, uses)
      modifies this, Below()
      ensures ok == (Kept(kind.pred, old(subs[0].generator.left)) != [])
      ensures ok ==> Valid() && left == Kept(kind.pred, old(subs[0].generator.left)) && read == 0
    {
      hide Below, GeneratorWrapper.Valid, ValidTake, ValidRepeat, ValidMap, ValidChunk, ValidGenerators;
      ok := true;
      ghost var all := subs[0].generator.left;
      var v := GetSub(0);
      if !kind.pred(v) {
        ok := SeekFilter(kind.pred);
      }
      left := Kept(kind.pred, all);
    }

    /** The rest of building a map: saves the first element. */
    method StartMap()
      requires Owns() && SubsValid() && kind.MapGenerator? && read == 0
      requires var sub := subs[0].generator; sub.left != [] && sub.read == 0 && sub.uses == ONCE
      modifies this, Below()
      ensures Valid() && left == Mapped(kind.f, old(subs[0].generator.left)) && read == 0
    {
      hide Below, GeneratorWrapper.Valid, ValidTake, ValidFilter, ValidRepeat, ValidChunk, ValidGenerators;
      var v := GetSub(0);
      cache := kind.f(v);
      left := Mapped(kind.f, subs[0].generator.left);
    }

    /** The rest of building a chunk generator: fills the first chunk. */
    method StartChunk() returns (ok: bool)
      requires Owns() && SubsValid() && kind.ChunkGenerator? && kind.size > 0 && read == 0
      requires var sub := subs[0].generator; sub.left != [] && sub.read == 0 && sub.uses == ONCE
      modifies this, Below()
      ensures ok == (Blocks(kind.size, old(subs[0].generator.left)) != [])
      ensures ok ==> Valid() && left == Blocks(kind.size, old(subs[0].generator.left)) && read == 0
    {
      hide Below, GeneratorWrapper.Valid, ValidTake, ValidFilter, ValidRepeat, ValidMap, ValidGenerators;
      ghost var all := subs[0].generator.left;
      ok := true;
      var v := GetSub(0);
      saved := [v];
      var i := 1;
      while i < kind.size
        invariant 1 <= i <= kind.size && i <= |all| && saved == all[..i] && read == 0
        invariant SubsValid() && subs[0].generator.left != [] && subs[0].generator.read == 1
            && subs[0].generator.left == all[i - 1..]
      {
        ok := NextSub(0);
        if !ok { break; }
        v := GetSub(0);
        saved := saved + [v];
        i := i + 1;
      }
      left := Blocks(kind.size, all);
    }

    method Next() returns (ok: bool)
      requires Valid() && left != [] && read == uses(left[0])
      modifies repr
      ensures Valid() && left == old(left)[1..] && ok == (left != []) && (ok ==> read == 0)
      decreases height, 2
    {
      match kind
      case SingleValueGenerator(_) =>
        ok := false;
        left := [];
      case FixedValuesGenerator(values) =>
        index := index + 1;
        ok := index < |values|;
        left := left[1..];
        read := 0;
      case RangeGenerator(end, step) =>
        current := current + step;
        ok := if step > 0 then current < end else current > end;
        left := left[1..];
        read := 0;
      case TakeGenerator(_) => ok := NextTake();
      case FilterGenerator(_) => ok := NextFilter();
      case RepeatGenerator(_) => ok := NextRepeat();
      case MapGenerator(_) => ok := NextMap();
      case ChunkGenerator(_) => ok := NextChunk();
      case Generators => ok := NextConcat();
    }
  }

  /** A generator with the part of it that its base class holds: the number of elements moved past, and the
      saved text of the current element. */
  class GeneratorWrapper {
    const generator: Generator
    const stringify: Value -> string
    var elementIndex: nat
    var stringCache: string
    ghost const all: seq<Value>

    /** Takes over a new generator. */
    constructor (generator: Generator, stringify: Value -> string)
      requires generator.Owns() && generator.Valid() && generator.left != []
      ensures Valid() && this.generator == generator && this.stringify == stringify
      ensures all == generator.left && elementIndex == 0 && stringCache == ""
    {
      this.generator := generator;
      this.stringify := stringify;
      elementIndex := 0;
      stringCache := "";
      all := generator.left;
    }

    ghost function Repr(): set<object> {
      {this} + generator.repr
    }

    ghost predicate Valid()
      reads Repr()
      decreases generator.height, 2
    {
      && this !in generator.repr && generator in generator.repr
      && generator.Owns() && generator.Valid()
      && Counted()
    }

    /** The counter is the position of the current element, and saved text is the text of that element. */
    ghost predicate Counted()
      reads this, generator
    {
      var left := generator.left;
      && all != [] && |left| <= |all| && left == all[|all| - |left|..]
      && elementIndex == |all| - (if left == [] then 1 else |left|)
      && (left != [] && stringCache != "" ==> stringCache == stringify(left[0]))
    }

    method Get() returns (v: Value)
      requires Valid() && generator.left != [] && generator.read < generator.uses(generator.left[0])
      modifies generator.repr
      ensures Valid() && generator.left == old(generator.left) && v == generator.left[0]
          && generator.read == old(generator.read) + 1
      decreases generator.height, 3
    {
      v := generator.Get();
    }

    /** Moves on; the counter and the saved text follow. */
    method CountedNext() returns (ok: bool)
      requires Valid() && generator.left != [] && generator.read == generator.uses(generator.left[0])
      modifies Repr()
      ensures Valid() && generator.left == old(generator.left)[1..] && ok == (generator.left != [])
          && (ok ==> generator.read == 0)
      ensures elementIndex == old(elementIndex) + (if ok then 1 else 0)
      decreases generator.height, 3
    {
      ok := generator.Next();
      if ok {
        stringCache := "";
        elementIndex := elementIndex + 1;
      }
    }

    /** The text of the current element, taken only once for each. */
    method CurrentElementAsString() returns (s: string)
      requires Valid() && generator.left != []
      requires stringCache == "" ==> generator.read < generator.uses(generator.left[0])
      modifies Repr()
      ensures Valid() && generator.left == old(generator.left) && s == stringify(generator.left[0])
          && elementIndex == old(elementIndex)
    {
      if stringCache == "" {
        var v := generator.Get();
        stringCache := stringify(v);
      }
      s := stringCache;
    }
  }

  /** A new generator that has all of `all` left. */
  ghost predicate Starts(g: Generator, all: seq<Value>, uses: Uses)
    reads g, g.repr
  {
    g in g.repr && g.Owns() && g.Valid() && g.left == all && g.read == 0 && g.uses == uses
  }

  ghost predicate WrapperStarts(w: GeneratorWrapper, all: seq<Value>, uses: Uses)
    reads w.Repr(), w.generator.repr, w.generator
  {
    w.Valid() && Starts(w.generator, all, uses) && w.all == all && all != []
  }

  method NewSource(kind: Kind, current: int, ghost all: seq<Value>, ghost uses: Uses) returns (g: Generator)
    requires forall v :: uses(v) > 0
    requires match kind
             case SingleValueGenerator(value) => all == [value]
             case FixedValuesGenerator(values) => all == values
             case RangeGenerator(end, step) => step != 0 && all == RangeFrom(current, end, step)
             case _ => false
    ensures Starts(g, all, uses) && fresh(g.repr)
  {
    g := new Generator(kind, [], {}, uses);
    g.current := current;
    g.left := all;
  }

  method NewTake(target: nat, sub: GeneratorWrapper, ghost all: seq<Value>, ghost uses: Uses) returns (g: Generator)
    requires target > 0 && WrapperStarts(sub, all, uses)
    ensures Starts(g, Prefix(target, all), uses) && fresh(g.repr - sub.Repr()) && g.repr >= sub.Repr()
  {
    g := new Generator(TakeGenerator(target), [sub], sub.Repr(), uses);
    g.left := Prefix(target, all);
  }

  /** Fails when the filter keeps nothing. */
  method NewFilter(pred: Value -> bool, sub: GeneratorWrapper, ghost all: seq<Value>, ghost uses: Uses)
          returns (g: Option<Generator>)
    requires (forall v :: uses(v) > 0) && WrapperStarts(sub, all, FilterUses(pred, uses))
    modifies sub.Repr()
    ensures g.Some? <==> Kept(pred, all) != []
    ensures g.Some? ==>
        Starts(g.value, Kept(pred, all), uses) && fresh(g.value.repr - sub.Repr()) && g.value.repr >= sub.Repr()
  {
    hide Generator.Matches, Kept;
    var filter := new Generator(FilterGenerator(pred), [sub], sub.Repr(), uses);
    var ok := filter.StartFilter();
    if !ok { return None; }
    g := Some(filter);
  }

  method NewRepeat(repeats: nat, sub: GeneratorWrapper, ghost all: seq<Value>, ghost uses: Uses) returns (g: Generator)
    requires repeats > 0 && WrapperStarts(sub, all, uses)
    ensures Starts(g, all + Times(repeats - 1, AsRead(uses, all)), uses) && fresh(g.repr - sub.Repr())
        && g.repr >= sub.Repr()
  {
    g := new Generator(RepeatGenerator(repeats), [sub], sub.Repr(), uses);
    g.left := FirstPassLeft(repeats, [], 0, uses, all);
    assert [] + AsRead(uses, all) == AsRead(uses, all);
  }

  method NewMap(f: Value -> Value, sub: GeneratorWrapper, ghost all: seq<Value>, ghost uses: Uses)
          returns (g: Generator)
    requires (forall v :: uses(v) > 0) && WrapperStarts(sub, all, ONCE)
    modifies sub.Repr()
    ensures Starts(g, Mapped(f, all), uses) && fresh(g.repr - sub.Repr()) && g.repr >= sub.Repr()
  {
    hide Generator.Matches, Mapped;
    g := new Generator(MapGenerator(f), [sub], sub.Repr(), uses);
    g.StartMap();
  }

  /** Fails when there are not enough elements for the first chunk. */
  method NewChunk(size: nat, sub: GeneratorWrapper, ghost all: seq<Value>, ghost uses: Uses)
          returns (g: Option<Generator>)
    requires size > 0 && (forall v :: uses(v) > 0) && WrapperStarts(sub, all, ONCE)
    modifies sub.Repr()
    ensures g.Some? <==> Blocks(size, all) != []
    ensures g.Some? ==>
        Starts(g.value, Blocks(size, all), uses) && fresh(g.value.repr - sub.Repr()) && g.value.repr >= sub.Repr()
  {
    hide Generator.Matches, Blocks;
    var chunk := new Generator(ChunkGenerator(size), [sub], sub.Repr(), uses);
    var ok := chunk.StartChunk();
    if !ok { return None; }
    g := Some(chunk);
  }

  method NewConcat(subs: seq<GeneratorWrapper>, ghost below: set<object>, ghost alls: seq<seq<Value>>, ghost uses: Uses)
          returns (g: Generator)
    requires forall v :: uses(v) > 0
    requires subs != [] && |alls| == |subs| && forall i :: 0 <= i < |subs| ==> WrapperStarts(subs[i], alls[i], uses)
    requires forall i :: 0 <= i < |subs| ==> subs[i].Repr() <= below
    requires forall i, j :: 0 <= i < j < |subs| ==> subs[i].Repr() !! subs[j].Repr()
    ensures Starts(g, Joined(alls), uses) && g.repr == {g} + below && fresh(g)
  {
    g := new Generator(Kind.Generators, subs, below, uses);
    FollowingJoined(subs, alls);
    assert subs[0..] == subs;
    g.left := Joined(alls);
  }

  function Joined(alls: seq<seq<Value>>): seq<Value> {
    if alls == [] then [] else alls[0] + Joined(alls[1..])
  }

  lemma {:induction false} FollowingJoined(subs: seq<GeneratorWrapper>, alls: seq<seq<Value>>)
    requires |alls| == |subs| && forall i :: 0 <= i < |subs| ==> subs[i].generator.left == alls[i]
    ensures Following(subs) == Joined(alls)
    decreases |subs|
  {
    if subs != [] {
      FollowingJoined(subs[1..], alls[1..]);
    }
  }

  method Wrap(g: Generator, stringify: Value -> string, ghost all: seq<Value>, ghost uses: Uses)
          returns (w: GeneratorWrapper)
    requires Starts(g, all, uses) && all != []
    ensures WrapperStarts(w, all, uses) && fresh(w) && w.Repr() == {w} + g.repr && w.stringify == stringify
  {
    w := new GeneratorWrapper(g, stringify);
  }

  ghost predicate AllStart(ws: seq<GeneratorWrapper>, alls: seq<seq<Value>>, uses: Uses, below: set<object>)
    reads set i, o | 0 <= i < |ws| && o in ws[i].Repr() :: o
    reads set i, o | 0 <= i < |ws| && o in ws[i].generator.repr :: o
    reads set i | 0 <= i < |ws| :: ws[i].generator
  {
    && |ws| == |alls|
    && (forall i :: 0 <= i < |ws| ==> WrapperStarts(ws[i], alls[i], uses) && ws[i].Repr() <= below)
    && (forall i, j :: 0 <= i < j < |ws| ==> ws[i].Repr() !! ws[j].Repr())
  }

  function AllElements(es: seq<Expr>, uses: Uses): (alls: seq<seq<Value>>)
    requires forall i :: 0 <= i < |es| ==> Allowed(es[i])
    ensures |alls| == |es|
    ensures Joined(alls) == ElementsOf(es, uses)
  {
    if es == [] then []
    else
      var alls := [Elements(es[0], uses)] + AllElements(es[1..], uses);
      assert alls[1..] == AllElements(es[1..], uses);
      alls
  }

  /** Builds the generator of an expression; fails exactly when a filter keeps nothing or a chunk cannot be
      filled. The generator yields the elements of the expression. */
  method Build(e: Expr, stringify: Value -> string, ghost uses: Uses) returns (w: Option<GeneratorWrapper>)
    requires Allowed(e) && forall v :: uses(v) > 0
    ensures w.Some? <==> Buildable(e, uses)
    ensures w.Some? ==>
        WrapperStarts(w.value, Elements(e, uses), uses) && fresh(w.value.Repr()) && w.value.stringify == stringify
    decreases e, 2
  {
    hide Starts, Generator.Valid, GeneratorWrapper.Valid, Generator.Owns, WrapperStarts, Kept, Blocks, Mapped, Prefix,
        RangeFrom, AsRead, Times, ElementsOf, AllElements, FilterUses;
    var g: Generator;
    match e {
      case Single(value) =>
        g := NewSource(SingleValueGenerator(value), 0, [value], uses);
      case Fixed(values) =>
        g := NewSource(FixedValuesGenerator(values), 0, values, uses);
      case Range(start, end, step) =>
        g := NewSource(RangeGenerator(end, step), start, RangeFrom(start, end, step), uses);
      case Concat(subs) =>
        var below, objects := BuildAll(subs, stringify, uses);
        if below.None? { return None; }
        g := NewConcat(below.value, objects, AllElements(subs, uses), uses);
      case _ =>
        var built := BuildAdapter(e, stringify, uses);
        if built.None? { return None; }
        g := built.value;
    }
    HasElements(e, uses);
    var wrapper := Wrap(g, stringify, Elements(e, uses), uses);
    w := Some(wrapper);
  }

  method BuildAdapter(e: Expr, stringify: Value -> string, ghost uses: Uses) returns (g: Option<Generator>)
    requires Allowed(e) && forall v :: uses(v) > 0
    requires e.Take? || e.Filter? || e.Repeat? || e.Map? || e.Chunk?
    ensures g.Some? <==> Buildable(e, uses)
    ensures g.Some? ==> Starts(g.value, Elements(e, uses), uses) && fresh(g.value.repr)
    decreases e, 1
  {
    hide Starts, Generator.Valid, GeneratorWrapper.Valid, Generator.Owns, WrapperStarts, Kept, Blocks, Mapped, Prefix,
        RangeFrom, AsRead, Times;
    ghost var inner := match e case Take(_, _) => uses case Filter(pred, _) => FilterUses(pred, uses) case Repeat(_,
            _) => uses case _ => ONCE;
    var below := Build(e.sub, stringify, inner);
    if below.None? { return None; }
    ghost var all := Elements(e.sub, inner);
    match e {
      case Take(target, sub) =>
        var take := NewTake(target, below.value, all, uses);
        g := Some(take);
      case Filter(pred, sub) =>
        g := NewFilter(pred, below.value, all, uses);
      case Repeat(repeats, sub) =>
        var repeated := NewRepeat(repeats, below.value, all, uses);
        g := Some(repeated);
      case Map(f, sub) =>
        var map_ := NewMap(f, below.value, all, uses);
        g := Some(map_);
      case Chunk(size, sub) =>
        g := NewChunk(size, below.value, all, uses);
    }
  }

  method BuildAll(es: seq<Expr>, stringify: Value -> string, ghost uses: Uses)
    returns (ws: Option<seq<GeneratorWrapper>>, ghost below: set<object>)
    requires (forall i :: 0 <= i < |es| ==> Allowed(es[i])) && forall v :: uses(v) > 0
    ensures ws.Some? <==> forall i :: 0 <= i < |es| ==> Buildable(es[i], uses)
    ensures ws.Some? ==> AllStart(ws.value, AllElements(es, uses), uses, below) && fresh(below)
    decreases es, 0
  {
    hide WrapperStarts, Elements;
    below := {};
    if es == [] { return Some([]), {}; }
    var first := Build(es[0], stringify, uses);
    if first.None? { return None, {}; }
    var rest, objects := BuildAll(es[1..], stringify, uses);
    if rest.None? { return None, {}; }
    OneMoreStarts(first.value, Elements(es[0], uses), rest.value, AllElements(es[1..], uses), uses, objects);
    ws := Some([first.value] + rest.value);
    below := first.value.Repr() + objects;
  }

  lemma OneMoreStarts(w: GeneratorWrapper, all: seq<Value>, ws: seq<GeneratorWrapper>, alls: seq<seq<Value>>,
          uses: Uses, below: set<object>)
    requires WrapperStarts(w, all, uses) && AllStart(ws, alls, uses, below) && w.Repr() !! below
    ensures AllStart([w] + ws, [all] + alls, uses, w.Repr() + below)
  {
    hide WrapperStarts;
    var more, alls' := [w] + ws, [all] + alls;
    forall i | 0 <= i < |more| ensures WrapperStarts(more[i], alls'[i], uses) && more[i].Repr() <= w.Repr() + below {
      if i > 0 {
        assert more[i] == ws[i - 1] && alls'[i] == alls[i - 1];
      }
    }
    forall i, j | 0 <= i < j < |more| ensures more[i].Repr() !! more[j].Repr() {
      assert more[j] == ws[j - 1];
      if i > 0 {
        assert more[i] == ws[i - 1];
      }
    }
  }

  /** One read more of the first element of `left`, which has been read `read` times. */
  lemma ReadMore(uses: Uses, values: seq<Value>, left: seq<Value>, read: nat)
    requires left != [] && read < uses(left[0])
    ensures values + [left[0]] + Copies(uses(left[0]) - read - 1, left[0])
        == values + Copies(uses(left[0]) - read, left[0])
  {
  }

  lemma ReadAll(uses: Uses, values: seq<Value>, left: seq<Value>)
    requires left != []
    ensures AsRead(uses, left) == Copies(uses(left[0]), left[0]) + AsRead(uses, left[1..])
    ensures values + Copies(0, left[0]) == values
    ensures values + Copies(uses(left[0]), left[0]) + AsRead(uses, left[1..]) == values + AsRead(uses, left)
  {
  }

  /** Goes through a generator as the tracker does: its current element is read once in every cycle that it stands
      for, and then the next one is. */
  method Collect(w: GeneratorWrapper, cycles: Uses) returns (values: seq<Value>)
    requires w.Valid() && w.generator.left != [] && w.generator.read == 0 && w.generator.uses == cycles
    requires forall v :: cycles(v) > 0
    modifies w.Repr()
    ensures values == AsRead(cycles, old(w.generator.left))
    ensures w.elementIndex == old(w.elementIndex) + |old(w.generator.left)| - 1
  {
    hide Generator.Valid, GeneratorWrapper.Counted, AsRead, Copies;
    values := [];
    var more := true;
    ghost var all := w.generator.left;
    ghost var done := 0;
    while more
      invariant w.Valid() && w.generator.uses == cycles
      invariant done <= |all| && w.generator.left == all[done..] && (more <==> done < |all|)
      invariant values + AsRead(cycles, w.generator.left) == AsRead(cycles, all)
      invariant more ==> w.generator.read == 0
      invariant w.elementIndex == old(w.elementIndex) + (if more then done else done - 1)
      decreases |all| - done
    {
      ghost var left, before := w.generator.left, values;
      ReadAll(cycles, before, left);
      var v := w.Get();
      ReadMore(cycles, values, left, 0);
      values := values + [v];
      var times := 1;
      while times < cycles(v)
        invariant w.Valid() && w.generator.uses == cycles && w.generator.left == left && v == left[0]
        invariant w.generator.read == times <= cycles(v) && w.elementIndex == old(w.elementIndex) + done
        invariant values + Copies(cycles(v) - times, v) == before + Copies(cycles(v), v)
      {
        ReadMore(cycles, values, left, times);
        v := w.Get();
        values := values + [v];
        times := times + 1;
      }
      ReadAll(cycles, values, left);
      more := w.CountedNext();
      done := done + 1;
    }
    ReadNothing(cycles, values);
  }

  lemma ReadNothing(uses: Uses, values: seq<Value>)
    ensures values + AsRead(uses, []) == values
  {
  }

  /** What a test sees of a generator, cycle after cycle, when element `v` stands for `cycles(v)` of them. */
  method Generate(e: Expr, stringify: Value -> string, cycles: Uses) returns (values: Option<seq<Value>>)
    requires Allowed(e) && forall v :: cycles(v) > 0
    ensures values.Some? <==> Buildable(e, cycles)
    ensures values.Some? ==> values.value == AsRead(cycles, Elements(e, cycles))
    ensures values.Some? && ReadOnce(e, false) ==> values.value == AsRead(cycles, Plain(e))
    ensures values.Some? && ReadOnce(e, true) && (forall v :: cycles(v) == 1) ==> values.value == Plain(e)
  {
    hide Buildable, Elements, Plain, ReadOnce, AsRead;
    var w := Build(e, stringify, cycles);
    if w.None? { return None; }
    var all := Collect(w.value, cycles);
    values := Some(all);
    if ReadOnce(e, false) {
      ElementsArePlain(e, cycles, false);
    }
    if ReadOnce(e, true) && forall v :: cycles(v) == 1 {
      ElementsArePlain(e, cycles, true);
      AsReadOnce(cycles, Plain(e));
    }
  }
}
