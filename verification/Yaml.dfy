/** Values as YAML: what emitting a value appends to a stream of events, and what parsing makes
    of a stream.

    The YAML library is taken at its word: strings are quoted and carry no tag, null is a plain
    `null`, booleans, binaries and sized integers carry their tags, and a scalar is read back
    with the content it was written with.
 */
module Yaml {
  import opened Wrappers
  import opened Memory
  import opened Value

  datatype Tag = Untagged | BoolTag | StrTag | BinaryTag | IntTag | Int32Tag | Uint32Tag | Int64Tag | Uint64Tag | DoubleTag | RegexTag | OtherTag

  datatype Token =
    | MappingStart(tag: Tag)
    | MappingEnd
    | SequenceStart
    | SequenceEnd
    | Atom(tag: Tag, text: seq<byte>, plain: bool)
    | Other // documents, aliases

  /** What libc makes of a text that is not plain decimal, read as signed or unsigned: other bases,
      signs and spaces, and for an unsigned number a minus sign that wraps around. */
  type Strtol = (seq<byte>, bool) -> Option<int>

  // ------------------------------------------------------------------ numbers

  function Digits(n: nat): (text: seq<byte>)
    ensures text != [] && (text[0] == 48 ==> n == 0) && forall i | 0 <= i < |text| :: 48 <= text[i] <= 57
  {
    if n < 10 then [(48 + n) as byte] else Digits(n / 10) + [(48 + n % 10) as byte]
  }

  /** What `printf` writes for an integer. */
  function Decimal(n: int): seq<byte> {
    if n < 0 then [45] + Digits(-n) else Digits(n)
  }

  predicate AllDigits(text: seq<byte>) {
    forall i | 0 <= i < |text| :: 48 <= text[i] <= 57
  }

  function ValueOf(text: seq<byte>): nat
    requires AllDigits(text)
  {
    if text == [] then 0 else 10 * ValueOf(text[..|text| - 1]) + (text[|text| - 1] as int - 48)
  }

  /** The number that a whole text stands for: decimal, unless it starts with a zero. */
  function Number(text: seq<byte>, signed: bool, other: Strtol): Option<int> {
    if text != [] && AllDigits(text) && (text[0] != 48 || |text| == 1) then
      var n: int := ValueOf(text);
      Some(n)
    else if signed && |text| > 1 && text[0] == 45 && AllDigits(text[1..]) && text[1] != 48 then
      var n: int := 0 - ValueOf(text[1..]);
      Some(n)
    else other(text, signed)
  }

  lemma {:induction false} ValueOfDigits(n: nat)
    ensures ValueOf(Digits(n)) == n
    ensures Digits(n)[0] == 48 ==> |Digits(n)| == 1
  {
    if n >= 10 {
      ValueOfDigits(n / 10);
      assert Digits(n)[..|Digits(n)| - 1] == Digits(n / 10);
    } else {
      assert Digits(n)[..0] == [];
    }
  }

  lemma NumberOfDecimal(n: int, signed: bool, other: Strtol)
    requires signed || n >= 0
    ensures Number(Decimal(n), signed, other) == Some(n)
  {
    hide Digits, ValueOf;
    if n < 0 {
      ValueOfDigits(-n);
      assert Decimal(n)[1..] == Digits(-n);
    } else {
      ValueOfDigits(n);
    }
  }

  // ------------------------------------------------------------------ emitting

  const REGEX: seq<byte> := [114, 101, 103, 101, 120]                // "regex"
  const OPTIONS: seq<byte> := [111, 112, 116, 105, 111, 110, 115]    // "options"
  const TRUE: seq<byte> := [116, 114, 117, 101]
  const FALSE: seq<byte> := [102, 97, 108, 115, 101]
  const NULL: seq<byte> := [110, 117, 108, 108]

  function Str(text: seq<byte>): Token {
    Atom(Untagged, text, false)
  }

  const NullToken: Token := Atom(Untagged, NULL, true)

  function ScalarToken(s: Memory.Scalar): Token {
    match s
    case Boolean(b) => Atom(BoolTag, if b then TRUE else FALSE, true)
    case Int32(i) => Atom(Int32Tag, Decimal(i), true)
    case Uint32(u) => Atom(Uint32Tag, Decimal(u), true)
    case Int64(i) => Atom(Int64Tag, Decimal(i), true)
    case Uint64(u) => Atom(Uint64Tag, Decimal(u), true)
    case Double(bits) => Atom(DoubleTag, Decimal(bits), true)
    case Null => NullToken
  }

  /** A value of type null is refused by the emitter, wherever it is. */
  predicate Emittable(v: Value)
    decreases v
  {
    match v
    case Scalar(s) => !s.Null?
    case Sequence(values) => forall i | 0 <= i < |values| :: Emittable(values[i])
    case Map(pairs) => forall i | 0 <= i < |pairs| :: PairEmittable(pairs[i])
    case _ => true
  }

  predicate PairEmittable(pair: Pair)
    decreases pair
  {
    pair.value.Some? ==> Emittable(pair.value.value)
  }

  function Emit(v: Value): (ts: seq<Token>)
    ensures ts != []
    decreases v
  {
    match v
    case Scalar(s) => [ScalarToken(s)]
    case String(s) => [Str(s)]
    case Binary(data) => [Atom(BinaryTag, data, true)]
    case Regex(s, options) =>
      [MappingStart(RegexTag), Str(REGEX), Str(s), Str(OPTIONS), Atom(IntTag, Decimal(options), true), MappingEnd]
    case Sequence(values) => [SequenceStart] + EmitValues(values, 0)
    case Map(pairs) => [MappingStart(Untagged)] + EmitPairs(pairs, 0)
  }

  /** The elements from the `k`-th on, and the end of the sequence. */
  function EmitValues(values: seq<Value>, k: nat): seq<Token>
    requires k <= |values|
    decreases values, |values| - k
  {
    if k == |values| then [SequenceEnd] else Emit(values[k]) + EmitValues(values, k + 1)
  }

  function EmitPair(pair: Pair): seq<Token>
    decreases pair
  {
    [Str(pair.key)] + if pair.value.None? then [NullToken] else Emit(pair.value.value)
  }

  function EmitPairs(pairs: seq<Pair>, k: nat): seq<Token>
    requires k <= |pairs|
    decreases pairs, |pairs| - k
  {
    if k == |pairs| then [MappingEnd] else EmitPair(pairs[k]) + EmitPairs(pairs, k + 1)
  }

  // ------------------------------------------------------------------ parsing

  function Bytes(text: seq<byte>): Option<CString> {
    if 0 in text then None else Some(text)
  }

  /** A scalar read as a string. */
  function StringOf(t: Token): Option<CString> {
    if t.Atom? && (t.tag.Untagged? || t.tag.StrTag?) then Bytes(t.text) else None
  }

  predicate IsNull(t: Token) {
    t.Atom? && t.tag.Untagged? && t.plain && (t.text == NULL || t.text == [126] || t.text == [])
  }

  /** A scalar read as an integer of a range. */
  function Ranged(text: seq<byte>, lo: int, hi: int, other: Strtol): Option<int> {
    var n := Number(text, lo < 0, other);
    if n.Some? && lo <= n.value <= hi then n else None
  }

  const TWO31: int := 0x8000_0000
  const TWO32: int := 0x1_0000_0000
  const TWO63: int := 0x8000_0000_0000_0000
  const TWO64: int := 0x1_0000_0000_0000_0000

  /** What a scalar stands for, by its tag. There is no case for doubles. */
  function ParseAtom(t: Token, other: Strtol): Option<Value>
    requires t.Atom?
  {
    match t.tag
    case Untagged | StrTag => if StringOf(t).Some? then Some(String(StringOf(t).value)) else None
    case BoolTag => if t.text == TRUE then Some(Scalar(Boolean(true))) else if t.text == FALSE then Some(Scalar(Boolean(false))) else None
    case BinaryTag => Some(Binary(t.text))
    case Int32Tag =>
      var n := Ranged(t.text, -TWO31, TWO31 - 1, other);
      if n.Some? then Some(Scalar(Int32(n.value))) else None
    case Uint32Tag =>
      var n := Ranged(t.text, 0, TWO32 - 1, other);
      if n.Some? then Some(Scalar(Uint32(n.value))) else None
    case Int64Tag =>
      var n := Ranged(t.text, -TWO63, TWO63 - 1, other);
      if n.Some? then Some(Scalar(Int64(n.value))) else None
    case Uint64Tag =>
      var n := Ranged(t.text, 0, TWO64 - 1, other);
      if n.Some? then Some(Scalar(Uint64(n.value))) else None
    case _ => None
  }

  datatype Parsed<T> = Parsed(value: T, rest: seq<Token>)

  /** The rest of a node whose first event was read; `depth` ends are still to come. */
  function Skip(ts: seq<Token>, depth: nat): (r: Option<seq<Token>>)
    ensures r.Some? ==> |r.value| <= |ts|
  {
    if depth == 0 then Some(ts)
    else if ts == [] then None
    else if ts[0].MappingStart? || ts[0].SequenceStart? then Skip(ts[1..], depth + 1)
    else if ts[0].MappingEnd? || ts[0].SequenceEnd? then Skip(ts[1..], depth - 1)
    else Skip(ts[1..], depth)
  }

  /** How many ends a node has that starts with this event. */
  function Opens(t: Token): nat {
    if t.MappingStart? || t.SequenceStart? then 1 else 0
  }

  /** Skips a whole node. */
  function SkipNode(ts: seq<Token>): (r: Option<seq<Token>>)
    ensures r.Some? ==> |r.value| < |ts|
  {
    if ts == [] then None else Skip(ts[1..], Opens(ts[0]))
  }

  /** The fields of a regex in any order; others are skipped. */
  function ParseRegex(ts: seq<Token>, regex: Option<CString>, options: nat, other: Strtol): (r: Option<Parsed<Value>>)
    ensures r.Some? ==> |r.value.rest| < |ts|
    decreases |ts|
  {
    if ts == [] then None
    else if ts[0].MappingEnd? then (if regex.Some? then Some(Parsed(Regex(regex.value, options), ts[1..])) else None)
    else if StringOf(ts[0]).Some? then
      if |ts| < 2 then None
      else
        var key, t := StringOf(ts[0]).value, ts[1];
        if key == REGEX && StringOf(t).Some? then ParseRegex(ts[2..], StringOf(t), options, other)
        else if key == OPTIONS && t.Atom? && (t.tag.IntTag? || t.tag.Untagged?) && Ranged(t.text, 0, TWO32 - 1, other).Some? then
          ParseRegex(ts[2..], regex, Ranged(t.text, 0, TWO32 - 1, other).value, other)
        else
          var rest := SkipNode(ts[1..]);
          if rest.None? then None else ParseRegex(rest.value, regex, options, other)
    else
      var value := SkipNode(ts);
      if value.None? then None
      else
        var rest := SkipNode(value.value);
        if rest.None? then None else ParseRegex(rest.value, regex, options, other)
  }

  function Parse(ts: seq<Token>, other: Strtol): (r: Option<Parsed<Value>>)
    ensures r.Some? ==> |r.value.rest| < |ts|
    decreases |ts|, 1
  {
    if ts == [] then None
    else
      match ts[0]
      case MappingStart(Untagged) =>
        var r := ParsePairs(ts[1..], other);
        if r.None? then None else Some(Parsed(Map(r.value.value), r.value.rest))
      case MappingStart(RegexTag) => ParseRegex(ts[1..], None, 0, other)
      case SequenceStart =>
        var r := ParseValues(ts[1..], other);
        if r.None? then None else Some(Parsed(Sequence(r.value.value), r.value.rest))
      case Atom(_, _, _) =>
        var v := ParseAtom(ts[0], other);
        if v.None? then None else Some(Parsed(v.value, ts[1..]))
      case _ => None
  }

  function ParseValues(ts: seq<Token>, other: Strtol): (r: Option<Parsed<seq<Value>>>)
    ensures r.Some? ==> |r.value.rest| < |ts|
    decreases |ts|, 2
  {
    if ts == [] then None
    else if ts[0].SequenceEnd? then Some(Parsed([], ts[1..]))
    else
      var first := Parse(ts, other);
      if first.None? then None
      else
        var more := ParseValues(first.value.rest, other);
        if more.None? then None else Some(Parsed([first.value.value] + more.value.value, more.value.rest))
  }

  function ParsePair(ts: seq<Token>, other: Strtol): (r: Option<Parsed<Pair>>)
    ensures r.Some? ==> |r.value.rest| < |ts|
    decreases |ts|, 0
  {
    if |ts| < 2 || StringOf(ts[0]).None? then None
    else if IsNull(ts[1]) then Some(Parsed(Pair(StringOf(ts[0]).value, None), ts[2..]))
    else
      var v := Parse(ts[1..], other);
      if v.None? then None else Some(Parsed(Pair(StringOf(ts[0]).value, Some(v.value.value)), v.value.rest))
  }

  function ParsePairs(ts: seq<Token>, other: Strtol): (r: Option<Parsed<seq<Pair>>>)
    ensures r.Some? ==> |r.value.rest| < |ts|
    decreases |ts|, 2
  {
    if ts == [] then None
    else if ts[0].MappingEnd? then Some(Parsed([], ts[1..]))
    else
      var first := ParsePair(ts, other);
      if first.None? then None
      else
        var more := ParsePairs(first.value.rest, other);
        if more.None? then None else Some(Parsed([first.value.value] + more.value.value, more.value.rest))
  }

  class Emitter {
    var stream: seq<Token>

    constructor ()
      ensures stream == []
    {
      stream := [];
    }

    /** Appends a value; fails exactly on a tree with a value of type null. */
    method EmitValue(v: Value) returns (ok: bool)
      modifies this
      ensures ok == Emittable(v)
      ensures ok ==> stream == old(stream) + Emit(v)
      decreases v
    {
      hide EmitValues, EmitPairs, Decimal, ScalarToken;
      match v
      case Scalar(s) =>
        if s.Null? {
          return false;
        }
        stream := stream + [ScalarToken(s)];
        return true;
      case String(s) =>
        stream := stream + [Str(s)];
        return true;
      case Binary(data) =>
        stream := stream + [Atom(BinaryTag, data, true)];
        return true;
      case Regex(s, options) =>
        stream := stream + [MappingStart(RegexTag), Str(REGEX), Str(s), Str(OPTIONS)];
        stream := stream + [Atom(IntTag, Decimal(options), true), MappingEnd];
        return true;
      case Sequence(values) =>
        ok := EmitSequence(values);
      case Map(pairs) =>
        ok := EmitMap(pairs);
    }

    method EmitSequence(values: seq<Value>) returns (ok: bool)
      modifies this
      ensures ok == Emittable(Sequence(values))
      ensures ok ==> stream == old(stream) + Emit(Sequence(values))
      decreases values
    {
      hide Emit, EmitValues, ToCome;
      ghost var whole := stream + Emit(Sequence(values));
      SequenceStarts(stream, values);
      stream := stream + [SequenceStart];
      for i := 0 to |values|
        invariant ToCome(stream, EmitValues(values, i), whole)
        invariant forall j | 0 <= j < i :: Emittable(values[j])
      {
        ElementSteps(stream, values, i, whole);
        ok := EmitValue(values[i]);
        if !ok {
          return;
        }
      }
      ElementsEnd(stream, values, whole);
      stream := stream + [SequenceEnd];
      return true;
    }

    method EmitMap(pairs: seq<Pair>) returns (ok: bool)
      modifies this
      ensures ok == Emittable(Map(pairs))
      ensures ok ==> stream == old(stream) + Emit(Map(pairs))
      decreases pairs
    {
      hide Emit, EmitPairs, EmitPair, ToCome;
      ghost var whole := stream + Emit(Map(pairs));
      MapStarts(stream, pairs);
      stream := stream + [MappingStart(Untagged)];
      for i := 0 to |pairs|
        invariant ToCome(stream, EmitPairs(pairs, i), whole)
        invariant forall j | 0 <= j < i :: PairEmittable(pairs[j])
      {
        PairSteps(stream, pairs, i, whole);
        PairIs(stream, pairs[i]);
        stream := stream + [Str(pairs[i].key)];
        if pairs[i].value.None? {
          stream := stream + [NullToken];
        } else {
          ok := EmitValue(pairs[i].value.value);
          if !ok {
            return;
          }
        }
      }
      AllPairsEnd(stream, pairs, whole);
      stream := stream + [MappingEnd];
      return true;
    }
  }

  /** What was emitted and what is to come make the whole. */
  ghost predicate ToCome(stream: seq<Token>, rest: seq<Token>, whole: seq<Token>) {
    stream + rest == whole
  }

  lemma Moves(stream: seq<Token>, first: seq<Token>, rest: seq<Token>, whole: seq<Token>)
    requires stream + (first + rest) == whole
    ensures ToCome(stream + first, rest, whole)
  {
    assert stream + (first + rest) == stream + first + rest;
  }

  lemma SequenceStarts(stream: seq<Token>, values: seq<Value>)
    ensures ToCome(stream + [SequenceStart], EmitValues(values, 0), stream + Emit(Sequence(values)))
  {
    Moves(stream, [SequenceStart], EmitValues(values, 0), stream + Emit(Sequence(values)));
  }

  lemma ElementSteps(stream: seq<Token>, values: seq<Value>, i: nat, whole: seq<Token>)
    requires i < |values| && ToCome(stream, EmitValues(values, i), whole)
    ensures ToCome(stream + Emit(values[i]), EmitValues(values, i + 1), whole)
  {
    Moves(stream, Emit(values[i]), EmitValues(values, i + 1), whole);
  }

  lemma ElementsEnd(stream: seq<Token>, values: seq<Value>, whole: seq<Token>)
    requires ToCome(stream, EmitValues(values, |values|), whole)
    ensures stream + [SequenceEnd] == whole
  {
  }

  lemma MapStarts(stream: seq<Token>, pairs: seq<Pair>)
    ensures ToCome(stream + [MappingStart(Untagged)], EmitPairs(pairs, 0), stream + Emit(Map(pairs)))
  {
    Moves(stream, [MappingStart(Untagged)], EmitPairs(pairs, 0), stream + Emit(Map(pairs)));
  }

  lemma PairSteps(stream: seq<Token>, pairs: seq<Pair>, i: nat, whole: seq<Token>)
    requires i < |pairs| && ToCome(stream, EmitPairs(pairs, i), whole)
    ensures ToCome(stream + EmitPair(pairs[i]), EmitPairs(pairs, i + 1), whole)
  {
    Moves(stream, EmitPair(pairs[i]), EmitPairs(pairs, i + 1), whole);
  }

  lemma PairIs(stream: seq<Token>, pair: Pair)
    ensures stream + EmitPair(pair) == stream + [Str(pair.key)] + if pair.value.None? then [NullToken] else Emit(pair.value.value)
  {
  }

  lemma AllPairsEnd(stream: seq<Token>, pairs: seq<Pair>, whole: seq<Token>)
    requires ToCome(stream, EmitPairs(pairs, |pairs|), whole)
    ensures stream + [MappingEnd] == whole
  {
  }
}
