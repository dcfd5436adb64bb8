/** Parsing what was emitted. */
module YamlRoundTrip {
  import opened Wrappers
  import opened Memory
  import opened Value
  import opened Yaml

  /** Integers fit their types. */
  predicate InRange(v: Value)
    decreases v
  {
    match v
    case Scalar(s) =>
      (match s
       case Int32(i) => -TWO31 <= i < TWO31
       case Uint32(u) => u < TWO32
       case Int64(i) => -TWO63 <= i < TWO63
       case Uint64(u) => u < TWO64
       case _ => true)
    case Regex(_, options) => options < TWO32
    case Sequence(values) => forall i | 0 <= i < |values| :: InRange(values[i])
    case Map(pairs) => forall i | 0 <= i < |pairs| :: PairInRange(pairs[i])
    case _ => true
  }

  predicate PairInRange(pair: Pair)
    decreases pair
  {
    pair.value.Some? ==> InRange(pair.value.value)
  }

  /** There is no double anywhere. */
  predicate NoDouble(v: Value)
    decreases v
  {
    match v
    case Scalar(s) => !s.Double?
    case Sequence(values) => forall i | 0 <= i < |values| :: NoDouble(values[i])
    case Map(pairs) => forall i | 0 <= i < |pairs| :: PairNoDouble(pairs[i])
    case _ => true
  }

  predicate PairNoDouble(pair: Pair)
    decreases pair
  {
    pair.value.Some? ==> NoDouble(pair.value.value)
  }

  predicate Typed(v: Value) {
    Emittable(v) && InRange(v)
  }

  lemma AtomRoundTrip(s: Memory.Scalar, other: Strtol)
    requires Typed(Scalar(s))
    ensures ParseAtom(ScalarToken(s), other) == if s.Double? then None else Some(Scalar(s))
  {
    hide Number, Decimal;
    match s
    case Int32(i) => NumberOfDecimal(i, true, other);
    case Uint32(u) => NumberOfDecimal(u, false, other);
    case Int64(i) => NumberOfDecimal(i, true, other);
    case Uint64(u) => NumberOfDecimal(u, false, other);
    case _ =>
  }

  lemma RegexField(s: CString, regex: Option<CString>, options: nat, rest: seq<Token>, other: Strtol)
    ensures ParseRegex([Str(REGEX), Str(s)] + rest, regex, options, other) == ParseRegex(rest, Some(s), options, other)
  {
    hide Ranged, SkipNode;
    var ts := [Str(REGEX), Str(s)] + rest;
    assert ts[2..] == rest && ts[0] == Str(REGEX) && ts[1] == Str(s);
    assert StringOf(ts[0]) == Some(REGEX) && StringOf(ts[1]) == Some(s);
  }

  lemma OptionsField(n: nat, regex: Option<CString>, options: nat, rest: seq<Token>, other: Strtol)
    requires n < TWO32
    ensures ParseRegex([Str(OPTIONS), Atom(IntTag, Decimal(n), true)] + rest, regex, options, other) == ParseRegex(rest, regex, n, other)
  {
    hide SkipNode, Number, Decimal;
    NumberOfDecimal(n, false, other);
    var t := Atom(IntTag, Decimal(n), true);
    var ts := [Str(OPTIONS), t] + rest;
    assert ts[2..] == rest && ts[0] == Str(OPTIONS) && ts[1] == t;
    assert StringOf(ts[0]) == Some(OPTIONS);
    assert Ranged(t.text, 0, TWO32 - 1, other) == Some(n);
  }

  lemma RegexRoundTrip(s: CString, options: nat, rest: seq<Token>, other: Strtol)
    requires options < TWO32
    ensures Parse(Emit(Regex(s, options)) + rest, other) == Some(Parsed(Regex(s, options), rest))
  {
    hide Number, Decimal, ParseRegex;
    var t3 := [MappingEnd] + rest;
    var t2 := [Str(OPTIONS), Atom(IntTag, Decimal(options), true)] + t3;
    var t1 := [Str(REGEX), Str(s)] + t2;
    var ts := [MappingStart(RegexTag)] + t1;
    assert Emit(Regex(s, options)) + rest == ts;
    assert ts[1..] == t1;
    RegexField(s, None, 0, t2, other);
    OptionsField(options, Some(s), 0, t3, other);
    RegexEnds(s, options, rest, other);
  }

  lemma RegexEnds(s: CString, options: nat, rest: seq<Token>, other: Strtol)
    ensures ParseRegex([MappingEnd] + rest, Some(s), options, other) == Some(Parsed(Regex(s, options), rest))
  {
    assert ([MappingEnd] + rest)[1..] == rest;
  }

  /** Parsing an emitted value gives the value and leaves the rest of the stream, whatever is
      nested in it; with a double anywhere it fails. */
  lemma {:induction false} RoundTrip(v: Value, rest: seq<Token>, other: Strtol)
    requires Typed(v)
    ensures Parse(Emit(v) + rest, other) == if NoDouble(v) then Some(Parsed(v, rest)) else None
    decreases v
  {
    hide ParseRegex, ParseValues, ParsePairs, Decimal;
    var ts := Emit(v) + rest;
    match v
    case Scalar(s) =>
      AtomRoundTrip(s, other);
      assert ts[1..] == rest;
    case String(_) => assert ts[1..] == rest;
    case Binary(_) => assert ts[1..] == rest;
    case Regex(s, options) => RegexRoundTrip(s, options, rest, other);
    case Sequence(values) =>
      ValuesRoundTrip(values, 0, rest, other);
      assert ts[1..] == EmitValues(values, 0) + rest;
      assert values[0..] == values;
    case Map(pairs) =>
      PairsRoundTrip(pairs, 0, rest, other);
      assert ts[1..] == EmitPairs(pairs, 0) + rest;
      assert pairs[0..] == pairs;
  }

  predicate NoDoubleFrom(values: seq<Value>, k: nat)
    requires k <= |values|
  {
    forall i | k <= i < |values| :: NoDouble(values[i])
  }

  predicate NoDoublePairs(pairs: seq<Pair>, k: nat)
    requires k <= |pairs|
  {
    forall i | k <= i < |pairs| :: PairNoDouble(pairs[i])
  }

  lemma {:induction false} ValuesRoundTrip(values: seq<Value>, k: nat, rest: seq<Token>, other: Strtol)
    requires k <= |values| && forall i | 0 <= i < |values| :: Typed(values[i])
    ensures ParseValues(EmitValues(values, k) + rest, other) ==
            if NoDoubleFrom(values, k) then Some(Parsed(values[k..], rest)) else None
    decreases values, |values| - k
  {
    var ts := EmitValues(values, k) + rest;
    if k == |values| {
      assert ts[1..] == rest && values[k..] == [];
    } else {
      var more := EmitValues(values, k + 1) + rest;
      assert ts == Emit(values[k]) + more;
      RoundTrip(values[k], more, other);
      ValuesRoundTrip(values, k + 1, rest, other);
      StartsValue(values[k]);
      assert values[k..] == [values[k]] + values[k + 1..];
    }
  }

  /** A value does not start with an end or a null. */
  lemma StartsValue(v: Value)
    requires Emittable(v)
    ensures var t := Emit(v)[0];
            !t.SequenceEnd? && !t.MappingEnd? && !IsNull(t)
  {
  }

  lemma PairRoundTrip(pair: Pair, rest: seq<Token>, other: Strtol)
    requires PairEmittable(pair) && PairInRange(pair)
    ensures ParsePair(EmitPair(pair) + rest, other) == if PairNoDouble(pair) then Some(Parsed(pair, rest)) else None
    decreases pair
  {
    var ts := EmitPair(pair) + rest;
    if pair.value.None? {
      assert ts[2..] == rest;
    } else {
      assert ts[1..] == Emit(pair.value.value) + rest;
      StartsValue(pair.value.value);
      RoundTrip(pair.value.value, rest, other);
    }
  }

  lemma {:induction false} PairsRoundTrip(pairs: seq<Pair>, k: nat, rest: seq<Token>, other: Strtol)
    requires k <= |pairs| && forall i | 0 <= i < |pairs| :: PairEmittable(pairs[i]) && PairInRange(pairs[i])
    ensures ParsePairs(EmitPairs(pairs, k) + rest, other) ==
            if NoDoublePairs(pairs, k) then Some(Parsed(pairs[k..], rest)) else None
    decreases pairs, |pairs| - k
  {
    var ts := EmitPairs(pairs, k) + rest;
    if k == |pairs| {
      assert ts[1..] == rest && pairs[k..] == [];
    } else {
      var more := EmitPairs(pairs, k + 1) + rest;
      assert ts == EmitPair(pairs[k]) + more;
      PairRoundTrip(pairs[k], more, other);
      PairsRoundTrip(pairs, k + 1, rest, other);
      assert pairs[k..] == [pairs[k]] + pairs[k + 1..];
    }
  }

  /** A decimal number under the tag of an integer type is read exactly if the type holds it. */
  lemma IntegersFit(n: int, other: Strtol)
    ensures ParseAtom(Atom(Int32Tag, Decimal(n), true), other) == if -TWO31 <= n < TWO31 then Some(Scalar(Int32(n))) else None
    ensures ParseAtom(Atom(Int64Tag, Decimal(n), true), other) == if -TWO63 <= n < TWO63 then Some(Scalar(Int64(n))) else None
    ensures n >= 0 ==> ParseAtom(Atom(Uint32Tag, Decimal(n), true), other) == if n < TWO32 then Some(Scalar(Uint32(n))) else None
    ensures n >= 0 ==> ParseAtom(Atom(Uint64Tag, Decimal(n), true), other) == if n < TWO64 then Some(Scalar(Uint64(n))) else None
  {
    hide Number, Decimal;
    NumberOfDecimal(n, true, other);
    if n >= 0 {
      NumberOfDecimal(n, false, other);
    }
  }

  // ------------------------------------------------------------------ skipping

  /** Inside of other nodes, skipping passes over a whole value, whatever is nested in it. */
  lemma {:induction false} SkipInside(v: Value, rest: seq<Token>, depth: nat)
    requires depth > 0
    ensures Skip(Emit(v) + rest, depth) == Skip(rest, depth)
    decreases v
  {
    hide Decimal;
    var ts := Emit(v) + rest;
    match v
    case Sequence(values) =>
      assert ts[1..] == EmitValues(values, 0) + rest;
      SkipValues(values, 0, rest, depth + 1);
    case Map(pairs) =>
      assert ts[1..] == EmitPairs(pairs, 0) + rest;
      SkipPairs(pairs, 0, rest, depth + 1);
    case Regex(s, options) =>
      SkipRegex(s, options, rest, depth + 1);
    case _ => assert ts[1..] == rest;
  }

  lemma {:induction false} SkipValues(values: seq<Value>, k: nat, rest: seq<Token>, depth: nat)
    requires k <= |values| && depth > 0
    ensures Skip(EmitValues(values, k) + rest, depth) == Skip(rest, depth - 1)
    decreases values, |values| - k
  {
    if k == |values| {
      assert (EmitValues(values, k) + rest)[1..] == rest;
    } else {
      assert EmitValues(values, k) + rest == Emit(values[k]) + (EmitValues(values, k + 1) + rest);
      SkipInside(values[k], EmitValues(values, k + 1) + rest, depth);
      SkipValues(values, k + 1, rest, depth);
    }
  }

  lemma {:induction false} SkipPairs(pairs: seq<Pair>, k: nat, rest: seq<Token>, depth: nat)
    requires k <= |pairs| && depth > 0
    ensures Skip(EmitPairs(pairs, k) + rest, depth) == Skip(rest, depth - 1)
    decreases pairs, |pairs| - k
  {
    if k == |pairs| {
      assert (EmitPairs(pairs, k) + rest)[1..] == rest;
    } else {
      var more := EmitPairs(pairs, k + 1) + rest;
      assert EmitPairs(pairs, k) + rest == EmitPair(pairs[k]) + more;
      SkipPair(pairs[k], more, depth);
      SkipPairs(pairs, k + 1, rest, depth);
    }
  }

  lemma SkipPair(pair: Pair, rest: seq<Token>, depth: nat)
    requires depth > 0
    ensures Skip(EmitPair(pair) + rest, depth) == Skip(rest, depth)
    decreases pair
  {
    var value := if pair.value.None? then [NullToken] else Emit(pair.value.value);
    assert (EmitPair(pair) + rest)[1..] == value + rest;
    if pair.value.Some? {
      SkipInside(pair.value.value, rest, depth);
    } else {
      assert (value + rest)[1..] == rest;
    }
  }

  /** Skipping a node passes over exactly one value. */
  lemma SkipOfEmit(v: Value, rest: seq<Token>)
    ensures SkipNode(Emit(v) + rest) == Some(rest)
  {
    hide Decimal, EmitValues, EmitPairs, Skip;
    var ts := Emit(v) + rest;
    SkipNothing(rest);
    match v
    case Sequence(values) =>
      assert ts[1..] == EmitValues(values, 0) + rest;
      SkipValues(values, 0, rest, 1);
    case Map(pairs) =>
      assert ts[1..] == EmitPairs(pairs, 0) + rest;
      SkipPairs(pairs, 0, rest, 1);
    case Regex(s, options) =>
      SkipRegex(s, options, rest, 1);
    case _ => assert ts[1..] == rest;
  }

  lemma SkipNothing(rest: seq<Token>)
    ensures Skip(rest, 0) == Some(rest)
  {
  }

  lemma SkipRegex(s: CString, options: nat, rest: seq<Token>, depth: nat)
    requires depth > 0
    ensures Skip((Emit(Regex(s, options)) + rest)[1..], depth) == Skip(rest, depth - 1)
  {
    hide Decimal;
    var t5 := [MappingEnd] + rest;
    var t4 := [Atom(IntTag, Decimal(options), true)] + t5;
    var t3 := [Str(OPTIONS)] + t4;
    var t2 := [Str(s)] + t3;
    var t1 := [Str(REGEX)] + t2;
    assert (Emit(Regex(s, options)) + rest)[1..] == t1;
    assert t1[1..] == t2 && t2[1..] == t3 && t3[1..] == t4 && t4[1..] == t5 && t5[1..] == rest;
    assert Skip(t1, depth) == Skip(t2, depth) == Skip(t3, depth);
    assert Skip(t3, depth) == Skip(t4, depth) == Skip(t5, depth) == Skip(rest, depth - 1);
  }

  // ------------------------------------------------------------------ the fields of a regex

  /** A field of a regex, or something else that its mapping holds. */
  datatype RegexPart = Pattern(text: CString) | Options(options: nat) | Unknown(key: Value, value: Value)

  predicate ProperPart(part: RegexPart) {
    match part
    case Pattern(_) => true
    case Options(n) => n < TWO32
    case Unknown(key, _) => key != String(REGEX) && key != String(OPTIONS)
  }

  function EmitPart(part: RegexPart): seq<Token> {
    match part
    case Pattern(s) => [Str(REGEX), Str(s)]
    case Options(n) => [Str(OPTIONS), Atom(IntTag, Decimal(n), true)]
    case Unknown(key, value) => Emit(key) + Emit(value)
  }

  function EmitParts(parts: seq<RegexPart>): seq<Token> {
    if parts == [] then [] else EmitPart(parts[0]) + EmitParts(parts[1..])
  }

  /** The last pattern among the parts, if there is any. */
  function PatternOf(parts: seq<RegexPart>, before: Option<CString>): Option<CString> {
    if parts == [] then before else PatternOf(parts[1..], if parts[0].Pattern? then Some(parts[0].text) else before)
  }

  function OptionsOf(parts: seq<RegexPart>, before: nat): nat {
    if parts == [] then before else OptionsOf(parts[1..], if parts[0].Options? then parts[0].options else before)
  }

  lemma UnknownPart(key: Value, value: Value, rest: seq<Token>, regex: Option<CString>, options: nat, other: Strtol)
    requires ProperPart(Unknown(key, value))
    ensures ParseRegex(EmitPart(Unknown(key, value)) + rest, regex, options, other) == ParseRegex(rest, regex, options, other)
  {
    hide Decimal, EmitValues, EmitPairs, SkipNode, Ranged;
    var ts := EmitPart(Unknown(key, value)) + rest;
    assert ts == Emit(key) + (Emit(value) + rest);
    SkipOfEmit(key, Emit(value) + rest);
    SkipOfEmit(value, rest);
    assert ts[0] == Emit(key)[0];
    if StringOf(ts[0]).Some? {
      assert Emit(key) == [ts[0]];
      assert ts[1..] == Emit(value) + rest;
      assert StringOf(ts[0]).value != REGEX && StringOf(ts[0]).value != OPTIONS;
    } else {
      assert !ts[0].MappingEnd?;
    }
  }

  lemma {:induction false} PartsRead(
    parts: seq<RegexPart>, rest: seq<Token>, regex: Option<CString>, options: nat, other: Strtol)
    requires forall i | 0 <= i < |parts| :: ProperPart(parts[i])
    ensures ParseRegex(EmitParts(parts) + [MappingEnd] + rest, regex, options, other) ==
            if PatternOf(parts, regex).None? then None
            else Some(Parsed(Regex(PatternOf(parts, regex).value, OptionsOf(parts, options)), rest))
    decreases |parts|
  {
    hide ParseRegex, Decimal, Emit;
    if parts == [] {
      assert EmitParts(parts) + [MappingEnd] + rest == [MappingEnd] + rest;
      NoPartsLeft(rest, regex, options, other);
    } else {
      var more := EmitParts(parts[1..]) + [MappingEnd] + rest;
      assert EmitParts(parts) + [MappingEnd] + rest == EmitPart(parts[0]) + more;
      match parts[0] {
        case Pattern(s) =>
          RegexField(s, regex, options, more, other);
          PartsRead(parts[1..], rest, Some(s), options, other);
        case Options(n) =>
          OptionsField(n, regex, options, more, other);
          PartsRead(parts[1..], rest, regex, n, other);
        case Unknown(key, value) =>
          UnknownPart(key, value, more, regex, options, other);
          PartsRead(parts[1..], rest, regex, options, other);
      }
    }
  }

  lemma NoPartsLeft(rest: seq<Token>, regex: Option<CString>, options: nat, other: Strtol)
    ensures ParseRegex([MappingEnd] + rest, regex, options, other) ==
            if regex.None? then None else Some(Parsed(Regex(regex.value, options), rest))
  {
    assert ([MappingEnd] + rest)[1..] == rest;
  }

  /** The fields of a regex are read in any order, the last of a kind counts, anything else is
      passed over, and only the pattern has to be there. */
  lemma RegexInAnyOrder(parts: seq<RegexPart>, rest: seq<Token>, other: Strtol)
    requires forall i | 0 <= i < |parts| :: ProperPart(parts[i])
    ensures Parse([MappingStart(RegexTag)] + EmitParts(parts) + [MappingEnd] + rest, other) ==
            if PatternOf(parts, None).None? then None
            else Some(Parsed(Regex(PatternOf(parts, None).value, OptionsOf(parts, 0)), rest))
  {
    hide ParseRegex, EmitParts, PatternOf, OptionsOf;
    var ts := [MappingStart(RegexTag)] + EmitParts(parts) + [MappingEnd] + rest;
    assert ts[1..] == EmitParts(parts) + [MappingEnd] + rest;
    PartsRead(parts, rest, None, 0, other);
  }
}
