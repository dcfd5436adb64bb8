/** The parser: it goes through a stream of events and grows sequences and maps as it finds
    their elements.
 */
module YamlParser {
  import opened Wrappers
  import opened Memory
  import opened Value
  import opened Yaml
  import opened YamlRoundTrip

  class Parser {
    const tokens: seq<Token>
    const other: Strtol
    var pos: nat

    predicate Valid()
      reads this
    {
      pos <= |tokens|
    }

    /** What was not read. */
    ghost function Left(): seq<Token>
      reads this
      requires Valid()
    {
      tokens[pos..]
    }

    constructor (tokens: seq<Token>, other: Strtol)
      ensures Valid() && this.tokens == tokens && this.other == other && Left() == tokens
    {
      this.tokens, this.other, pos := tokens, other, 0;
    }

    /** The next event; there is none past the end of the stream. */
    method Next() returns (t: Option<Token>)
      requires Valid()
      modifies this
      ensures Valid() && old(pos) <= pos
      ensures t.None? <==> old(Left()) == []
      ensures t.Some? ==> old(Left()) == [t.value] + Left() && pos == old(pos) + 1
      ensures t.None? ==> pos == old(pos)
    {
      if pos == |tokens| {
        return None;
      }
      t := Some(tokens[pos]);
      pos := pos + 1;
    }

    /** Skips the rest of a node whose first event was read. */
    method SkipRest(first: Token) returns (ok: bool)
      requires Valid()
      modifies this
      ensures Valid() && old(pos) <= pos
      ensures ok == Skip(old(Left()), Opens(first)).Some?
      ensures ok ==> Left() == Skip(old(Left()), Opens(first)).value
    {
      var depth := Opens(first);
      while depth > 0
        invariant Valid() && old(pos) <= pos && Skip(Left(), depth) == Skip(old(Left()), Opens(first))
        decreases |tokens| - pos, depth
      {
        ghost var before := Left();
        var t := Next();
        if t.None? {
          return false;
        }
        assert before[1..] == Left();
        if t.value.MappingStart? || t.value.SequenceStart? {
          depth := depth + 1;
        } else if t.value.MappingEnd? || t.value.SequenceEnd? {
          depth := depth - 1;
        }
      }
      return true;
    }

    method SkipNext() returns (ok: bool)
      requires Valid()
      modifies this
      ensures Valid() && old(pos) <= pos && (ok ==> old(pos) < pos)
      ensures ok == SkipNode(old(Left())).Some?
      ensures ok ==> Left() == SkipNode(old(Left())).value
    {
      ghost var before := Left();
      var t := Next();
      if t.None? {
        return false;
      }
      assert before[1..] == Left();
      ok := SkipRest(t.value);
    }

    /** One field of a regex, whose key was read. */
    method ParseRegexField(key: CString, regex: Option<CString>, options: nat) returns (ok: bool, regex': Option<CString>, options': nat)
      requires Valid()
      modifies this
      ensures Valid() && old(pos) <= pos && (ok ==> old(pos) < pos)
      ensures forall k | StringOf(k) == Some(key) ::
                ParseRegex([k] + old(Left()), regex, options, other) == if ok then ParseRegex(Left(), regex', options', other) else None
    {
      ghost var before := Left();
      regex', options' := regex, options;
      var t := Next();
      if t.None? {
        return false, regex', options';
      }
      forall k: Token ensures var ts := [k] + before; ts[1..] == before && ts[2..] == Left() && ts[0] == k && ts[1] == t.value {
        var ts := [k] + before;
        assert ts[2..] == before[1..] == Left();
      }
      if key == REGEX && StringOf(t.value).Some? {
        return true, StringOf(t.value), options;
      }
      if key == OPTIONS && t.value.Atom? && (t.value.tag.IntTag? || t.value.tag.Untagged?) {
        var n := Ranged(t.value.text, 0, TWO32 - 1, other);
        if n.Some? {
          return true, regex, n.value;
        }
      }
      assert before[1..] == Left();
      ok := SkipRest(t.value);
    }
  
    method ParseRegexMapping() returns (v: Option<Value>)
      requires Valid()
      modifies this
      ensures Valid() && old(pos) <= pos && Agrees(ParseRegex(old(Left()), None, 0, other), v, Left())
    {
      hide StringOf, SkipNode;
      var regex: Option<CString>, options := None, 0;
      while true
        invariant Valid() && old(pos) <= pos && ParseRegex(Left(), regex, options, other) == ParseRegex(old(Left()), None, 0, other)
        decreases |tokens| - pos
      {
        ghost var before := Left();
        var t := Next();
        if t.None? {
          return None;
        }
        assert before[1..] == Left() && before[0] == t.value;
        if t.value.MappingEnd? {
          return if regex.Some? then Some(Regex(regex.value, options)) else None;
        }
        var key := StringOf(t.value);
        var ok;
        if key.Some? {
          ok, regex, options := ParseRegexField(key.value, regex, options);
          assert before == [t.value] + before[1..];
        } else {
          ok := SkipPair(t.value);
        }
        if !ok {
          return None;
        }
      }
    }

    /** Skips the rest of a key and its value. */
    method SkipPair(first: Token) returns (ok: bool)
      requires Valid()
      modifies this
      ensures Valid() && old(pos) <= pos && (ok ==> old(pos) < pos)
      ensures var key := SkipNode([first] + old(Left()));
              && ok == (key.Some? && SkipNode(key.value).Some?)
              && (ok ==> Left() == SkipNode(key.value).value)
    {
      assert ([first] + Left())[1..] == Left();
      ok := SkipRest(first);
      if ok {
        ok := SkipNext();
      }
    }

    /** A value whose first event was read. */
    method ParseValue(first: Token) returns (v: Option<Value>)
      requires Valid()
      modifies this
      ensures Valid() && old(pos) <= pos && Agrees(Parse([first] + old(Left()), other), v, Left())
      decreases |tokens| - pos, 1
    {
      hide ParseRegex, ParseAtom, ParseValues, ParsePairs;
      ghost var ts := [first] + Left();
      assert ts[1..] == Left() && ts[0] == first;
      match first
      case MappingStart(Untagged) =>
        var pairs := ParseMap();
        return if pairs.Some? then Some(Map(pairs.value)) else None;
      case MappingStart(RegexTag) =>
        v := ParseRegexMapping();
      case SequenceStart =>
        var values := ParseSequence();
        return if values.Some? then Some(Sequence(values.value)) else None;
      case Atom(_, _, _) =>
        return ParseAtom(first, other);
      case _ =>
        return None;
    }

    method ParseSequence() returns (values: Option<seq<Value>>)
      requires Valid()
      modifies this
      ensures Valid() && old(pos) <= pos && Agrees(ParseValues(old(Left()), other), values, Left())
      decreases |tokens| - pos, 0
    {
      hide Parse;
      var found: seq<Value> := [];
      ghost var all := ParseValues(Left(), other);
      AfterNone(all);
      while true
        invariant Valid() && old(pos) <= pos && After(all, found, ParseValues(Left(), other))
        decreases |tokens| - pos
      {
        ghost var before := Left();
        var t := Next();
        if t.None? {
          return None;
        }
        assert before[1..] == Left() && before[0] == t.value && before == [t.value] + Left();
        if t.value.SequenceEnd? {
          assert found + [] == found;
          return Some(found);
        }
        var v := ParseValue(t.value);
        if v.None? {
          return None;
        }
        AfterOne(all, found, v.value, ParseValues(Left(), other));
        found := found + [v.value];
      }
    }

    /** A pair whose key was read. */
    method ParseOnePair(first: Token) returns (pair: Option<Pair>)
      requires Valid()
      modifies this
      ensures Valid() && old(pos) <= pos && Agrees(ParsePair([first] + old(Left()), other), pair, Left())
      decreases |tokens| - pos, 1
    {
      hide Parse, StringOf, IsNull;
      ghost var ts := [first] + Left();
      assert ts[1..] == Left() && ts[0] == first;
      var key := StringOf(first);
      if key.None? {
        return None;
      }
      var t := Next();
      if t.None? {
        return None;
      }
      assert ts[2..] == Left() && ts[1] == t.value && ts[1..] == [t.value] + Left();
      if IsNull(t.value) {
        return Some(Pair(key.value, None));
      }
      var v := ParseValue(t.value);
      return if v.Some? then Some(Pair(key.value, v)) else None;
    }

    method ParseMap() returns (pairs: Option<seq<Pair>>)
      requires Valid()
      modifies this
      ensures Valid() && old(pos) <= pos && Agrees(ParsePairs(old(Left()), other), pairs, Left())
      decreases |tokens| - pos, 0
    {
      hide ParsePair;
      var found: seq<Pair> := [];
      ghost var all := ParsePairs(Left(), other);
      AfterNone(all);
      while true
        invariant Valid() && old(pos) <= pos && After(all, found, ParsePairs(Left(), other))
        decreases |tokens| - pos
      {
        ghost var before := Left();
        var t := Next();
        if t.None? {
          return None;
        }
        assert before[1..] == Left() && before[0] == t.value && before == [t.value] + Left();
        if t.value.MappingEnd? {
          assert found + [] == found;
          return Some(found);
        }
        var pair := ParseOnePair(t.value);
        if pair.None? {
          return None;
        }
        AfterOne(all, found, pair.value, ParsePairs(Left(), other));
        found := found + [pair.value];
      }
    }
  }

  /** A method found what the function says. */
  ghost predicate Agrees<T>(expected: Option<Parsed<T>>, found: Option<T>, left: seq<Token>) {
    if expected.None? then found.None? else found.Some? && expected.value == Parsed(found.value, left)
  }

  /** With what was found already, the rest makes the whole. */
  ghost predicate After<T>(all: Option<Parsed<seq<T>>>, found: seq<T>, rest: Option<Parsed<seq<T>>>) {
    if rest.None? then all.None? else all == Some(Parsed(found + rest.value.value, rest.value.rest))
  }

  lemma AfterNone<T>(all: Option<Parsed<seq<T>>>)
    ensures After(all, [], all)
  {
    if all.Some? {
      assert [] + all.value.value == all.value.value;
    }
  }

  lemma AfterOne<T>(all: Option<Parsed<seq<T>>>, found: seq<T>, x: T, rest: Option<Parsed<seq<T>>>)
    requires After(all, found, if rest.None? then None else Some(Parsed([x] + rest.value.value, rest.value.rest)))
    ensures After(all, found + [x], rest)
  {
    if rest.Some? {
      assert found + ([x] + rest.value.value) == found + [x] + rest.value.value;
    }
  }

  /** A value goes through a stream unchanged, with what follows it left to be read, exactly when
      it holds no double; emitting it fails exactly when it holds a value of type null. */
  method Through(v: Value, rest: seq<Token>, other: Strtol) returns (emitted: bool, parsed: Option<Value>, left: seq<Token>)
    requires InRange(v)
    ensures emitted == Emittable(v)
    ensures emitted ==> parsed == if NoDouble(v) then Some(v) else None
    ensures emitted && parsed.Some? ==> left == rest
  {
    parsed, left := None, [];
    var emitter := new Emitter();
    emitted := emitter.EmitValue(v);
    if !emitted {
      return;
    }
    var stream := emitter.stream + rest;
    assert stream == Emit(v) + rest;
    var parser := new Parser(stream, other);
    var first := parser.Next();
    RoundTrip(v, rest, other);
    assert [first.value] + parser.Left() == stream;
    parsed := parser.ParseValue(first.value);
    left := parser.tokens[parser.pos..];
  }
}
