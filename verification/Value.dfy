/** Values and their two-pass cloning: one recursion computes the size of the block, another,
    written separately, fills it.
 */
module Value {
  import opened Wrappers
  import opened Memory

  datatype Value =
    | Scalar(scalar: Memory.Scalar)
    | String(text: CString)
    | Binary(data: seq<byte>)
    | Regex(regex: CString, options: nat)
    | Sequence(values: seq<Value>)
    | Map(pairs: seq<Pair>)

  datatype Pair = Pair(key: CString, value: Option<Value>)

  const PAIR_SIZE: nat := 16  // sizeof(struct rbh_value_pair)

  // ------------------------------------------------------------------ the size pass

  /** Bytes `v` points at, when they start at offset `offset` from an aligned address. */
  function DataSize(v: Value, offset: nat): nat
    decreases v
  {
    match v
    case Scalar(_) => 0
    case String(s) => |s| + 1
    case Binary(data) => |data|
    case Regex(s, _) => |s| + 1
    case Sequence(values) => Align(offset) - offset + SequenceSize(values, |values|)
    case Map(pairs) => Align(offset) - offset + MapSize(pairs, |pairs|)
  }

  /** The structures of a sequence, and what its first `k` elements point at. */
  function SequenceSize(values: seq<Value>, k: nat): nat
    requires k <= |values|
    decreases values, k
  {
    if k == 0 then |values| * VALUE_SIZE
    else
      var size := Align(SequenceSize(values, k - 1));
      size + DataSize(values[k - 1], size)
  }

  function PairSize(pair: Pair): nat
    decreases pair
  {
    if pair.value.None? then |pair.key| + 1
    else
      var size := Align(|pair.key| + 1) + VALUE_SIZE;
      size + DataSize(pair.value.value, size)
  }

  function MapSize(pairs: seq<Pair>, k: nat): nat
    requires k <= |pairs|
    decreases pairs, k
  {
    if k == 0 then |pairs| * PAIR_SIZE else Align(MapSize(pairs, k - 1)) + PairSize(pairs[k - 1])
  }

  method ValueDataSize(v: Value, offset: nat) returns (size: nat)
    ensures size == DataSize(v, offset)
    decreases v
  {
    match v
    case Scalar(_) => size := 0;
    case String(s) => size := |s| + 1;
    case Binary(data) => size := |data|;
    case Regex(s, _) => size := |s| + 1;
    case Sequence(values) =>
      var pad := Align(offset) - offset;
      size := |values| * VALUE_SIZE;
      for i := 0 to |values|
        invariant size == SequenceSize(values, i)
      {
        size := Align(size);
        var more := ValueDataSize(values[i], size);
        size := size + more;
      }
      size := pad + size;
    case Map(pairs) =>
      var pad := Align(offset) - offset;
      size := ValueMapDataSize(pairs);
      size := pad + size;
  }

  method ValuePairDataSize(pair: Pair) returns (size: nat)
    ensures size == PairSize(pair)
    decreases pair
  {
    size := |pair.key| + 1;
    if pair.value.None? {
      return;
    }
    size := Align(size);
    size := size + VALUE_SIZE;
    var more := ValueDataSize(pair.value.value, size);
    size := size + more;
  }

  method ValueMapDataSize(pairs: seq<Pair>) returns (size: nat)
    ensures size == MapSize(pairs, |pairs|)
    decreases pairs
  {
    size := |pairs| * PAIR_SIZE;
    for i := 0 to |pairs|
      invariant size == MapSize(pairs, i)
    {
      size := Align(size);
      var more := ValuePairDataSize(pairs[i]);
      size := size + more;
    }
  }

  // ------------------------------------------------------------------ where the copy pass ends

  /** The address after the data of `v`, when copying starts at `at`. */
  function End(v: Value, at: nat): (end: nat)
    ensures at <= end
    decreases v
  {
    match v
    case Scalar(_) => at
    case String(s) => at + |s| + 1
    case Binary(data) => at + |data|
    case Regex(s, _) => at + |s| + 1
    case Sequence(values) => SequenceEnd(values, Align(at) + |values| * VALUE_SIZE, |values|)
    case Map(pairs) => MapEnd(pairs, at)
  }

  function SequenceEnd(values: seq<Value>, at: nat, k: nat): (end: nat)
    requires k <= |values|
    ensures at <= end
    decreases values, k
  {
    if k == 0 then at else End(values[k - 1], SequenceEnd(values, at, k - 1))
  }

  function PairEnd(pair: Pair, at: nat): (end: nat)
    ensures at <= end
    decreases pair
  {
    var end := at + |pair.key| + 1;
    if pair.value.None? then end else End(pair.value.value, Align(end) + VALUE_SIZE)
  }

  function PairsEnd(pairs: seq<Pair>, at: nat, k: nat): (end: nat)
    requires k <= |pairs|
    ensures at <= end
    decreases pairs, k
  {
    if k == 0 then at else PairEnd(pairs[k - 1], PairsEnd(pairs, at, k - 1))
  }

  function MapEnd(pairs: seq<Pair>, at: nat): (end: nat)
    ensures at <= end
    decreases pairs, |pairs| + 1
  {
    PairsEnd(pairs, Align(at) + |pairs| * PAIR_SIZE, |pairs|)
  }

  // ------------------------------------------------------------------ the first pass dominates

  /** If copying starts no later than the size pass thought, it ends no later either: the size
      pass aligns at least as often. */
  lemma {:induction false} SizeDominates(v: Value, base: nat, offset: nat, at: nat)
    requires base % ALIGNMENT == 0 && at <= base + offset
    ensures End(v, at) <= base + offset + DataSize(v, offset)
    decreases v
  {
    match v
    case Sequence(values) =>
      AlignMonotone(at, base + offset);
      AlignShift(base, offset);
      SequenceDominates(values, base + Align(offset), Align(at) + |values| * VALUE_SIZE, |values|);
    case Map(pairs) =>
      AlignMonotone(at, base + offset);
      AlignShift(base, offset);
      MapDominates(pairs, base + Align(offset), at);
    case _ =>
  }

  lemma {:induction false} SequenceDominates(values: seq<Value>, base: nat, at: nat, k: nat)
    requires base % ALIGNMENT == 0 && k <= |values| && at <= base + |values| * VALUE_SIZE
    ensures SequenceEnd(values, at, k) <= base + SequenceSize(values, k)
    decreases values, k
  {
    if k > 0 {
      SequenceDominates(values, base, at, k - 1);
      SizeDominates(values[k - 1], base, Align(SequenceSize(values, k - 1)), SequenceEnd(values, at, k - 1));
    }
  }

  lemma {:induction false} PairDominates(pair: Pair, base: nat, at: nat)
    requires base % ALIGNMENT == 0 && at <= base
    ensures PairEnd(pair, at) <= base + PairSize(pair)
    decreases pair
  {
    if pair.value.Some? {
      var end := at + |pair.key| + 1;
      AlignMonotone(end, base + |pair.key| + 1);
      AlignShift(base, |pair.key| + 1);
      SizeDominates(pair.value.value, base, Align(|pair.key| + 1) + VALUE_SIZE, Align(end) + VALUE_SIZE);
    }
  }

  lemma AlignsFrom(base: nat, n: nat)
    requires base % ALIGNMENT == 0
    ensures (base + Align(n)) % ALIGNMENT == 0 && n <= Align(n)
  {
  }

  lemma {:induction false} PairsDominate(pairs: seq<Pair>, base: nat, at: nat, k: nat)
    requires base % ALIGNMENT == 0 && k <= |pairs| && at <= base + |pairs| * PAIR_SIZE
    ensures PairsEnd(pairs, at, k) <= base + MapSize(pairs, k)
    decreases pairs, k
  {
    hide Align;
    if k > 0 {
      PairsDominate(pairs, base, at, k - 1);
      var size, end := MapSize(pairs, k - 1), PairsEnd(pairs, at, k - 1);
      AlignsFrom(base, size);
      PairDominates(pairs[k - 1], base + Align(size), end);
    }
  }

  lemma MapDominates(pairs: seq<Pair>, base: nat, at: nat)
    requires base % ALIGNMENT == 0 && Align(at) <= base
    ensures MapEnd(pairs, at) <= base + MapSize(pairs, |pairs|)
    decreases pairs, |pairs| + 1
  {
    PairsDominate(pairs, base, Align(at) + |pairs| * PAIR_SIZE, |pairs|);
  }

  // ------------------------------------------------------------------ what a block denotes

  /** The structure at `p` stands for `v`; all it points at lies in `lo..hi`. */
  ghost predicate Denotes(mem: seq<Cell>, p: nat, v: Value, lo: nat, hi: nat)
    decreases v
  {
    && p < |mem| && mem[p].ValueCell?
    && var head := mem[p].head;
       match v
       case Scalar(s) => head == ScalarHead(s)
       case String(s) => head.StringHead? && StringIn(mem, head.text, s, lo, hi)
       case Binary(data) => head.BinaryHead? && head.size == |data| && BytesIn(mem, head.data, data, lo, hi)
       case Regex(s, options) => head.RegexHead? && head.options == options && StringIn(mem, head.text, s, lo, hi)
       case Sequence(values) =>
         && head.SequenceHead? && head.count == |values| && lo <= head.values && head.values + |values| * VALUE_SIZE <= hi
         && forall i :: 0 <= i < |values| ==> Denotes(mem, head.values + i * VALUE_SIZE, values[i], lo, hi)
       case Map(pairs) => head.MapHead? && head.count == |pairs| && MapDenotes(mem, head.pairs, pairs, lo, hi)
  }

  ghost predicate StringIn(mem: seq<Cell>, q: nat, s: CString, lo: nat, hi: nat) {
    BytesIn(mem, q, Terminated(s), lo, hi)
  }

  ghost predicate BytesIn(mem: seq<Cell>, q: nat, bytes: seq<byte>, lo: nat, hi: nat) {
    lo <= q && q + |bytes| <= hi && BytesAt(mem, q, bytes)
  }

  ghost predicate PairDenotes(mem: seq<Cell>, p: nat, pair: Pair, lo: nat, hi: nat)
    decreases pair
  {
    && p < |mem| && mem[p].PairCell? && StringIn(mem, mem[p].key, pair.key, lo, hi)
    && (pair.value.None? <==> mem[p].value.None?)
    && (pair.value.Some? ==> lo <= mem[p].value.value && mem[p].value.value + VALUE_SIZE <= hi
                             && Denotes(mem, mem[p].value.value, pair.value.value, lo, hi))
  }

  ghost predicate MapDenotes(mem: seq<Cell>, q: nat, pairs: seq<Pair>, lo: nat, hi: nat)
    decreases pairs
  {
    && lo <= q && q + |pairs| * PAIR_SIZE <= hi
    && forall i :: 0 <= i < |pairs| ==> PairDenotes(mem, q + i * PAIR_SIZE, pairs[i], lo, hi)
  }

  /** The first `k` of the structures at `q` stand for the first `k` values. */
  ghost predicate ElementsDenote(mem: seq<Cell>, q: nat, values: seq<Value>, k: nat, lo: nat, hi: nat)
    requires k <= |values|
  {
    forall j :: 0 <= j < k ==> Denotes(mem, q + j * VALUE_SIZE, values[j], lo, hi)
  }

  ghost predicate PairsDenote(mem: seq<Cell>, q: nat, pairs: seq<Pair>, k: nat, lo: nat, hi: nat)
    requires k <= |pairs|
  {
    forall j :: 0 <= j < k ==> PairDenotes(mem, q + j * PAIR_SIZE, pairs[j], lo, hi)
  }

  /** A structure keeps its meaning while its own cell and what it points at are untouched,
      and in any wider range. */
  lemma {:induction false} DenotesKept(mem: seq<Cell>, mem': seq<Cell>, p: nat, v: Value, lo: nat, hi: nat, lo': nat, hi': nat)
    requires Denotes(mem, p, v, lo, hi) && lo' <= lo && hi <= hi'
    requires |mem'| == |mem| && mem'[p] == mem[p] && forall i :: lo <= i < hi && i < |mem| ==> mem'[i] == mem[i]
    ensures Denotes(mem', p, v, lo', hi')
    decreases v
  {
    match v
    case Sequence(values) =>
      var q := mem[p].head.values;
      forall i | 0 <= i < |values| ensures Denotes(mem', q + i * VALUE_SIZE, values[i], lo', hi') {
        DenotesKept(mem, mem', q + i * VALUE_SIZE, values[i], lo, hi, lo', hi');
      }
    case Map(pairs) =>
      MapDenotesKept(mem, mem', mem[p].head.pairs, pairs, lo, hi, lo', hi');
    case _ =>
  }

  lemma {:induction false} PairDenotesKept(mem: seq<Cell>, mem': seq<Cell>, p: nat, pair: Pair, lo: nat, hi: nat, lo': nat, hi': nat)
    requires PairDenotes(mem, p, pair, lo, hi) && lo' <= lo && hi <= hi'
    requires |mem'| == |mem| && mem'[p] == mem[p] && forall i :: lo <= i < hi && i < |mem| ==> mem'[i] == mem[i]
    ensures PairDenotes(mem', p, pair, lo', hi')
    decreases pair
  {
    if pair.value.Some? {
      DenotesKept(mem, mem', mem[p].value.value, pair.value.value, lo, hi, lo', hi');
    }
  }

  lemma {:induction false} MapDenotesKept(mem: seq<Cell>, mem': seq<Cell>, q: nat, pairs: seq<Pair>, lo: nat, hi: nat, lo': nat, hi': nat)
    requires MapDenotes(mem, q, pairs, lo, hi) && lo' <= lo && hi <= hi'
    requires |mem'| == |mem| && forall i :: lo <= i < hi && i < |mem| ==> mem'[i] == mem[i]
    ensures MapDenotes(mem', q, pairs, lo', hi')
    decreases pairs
  {
    forall i | 0 <= i < |pairs| ensures PairDenotes(mem', q + i * PAIR_SIZE, pairs[i], lo', hi') {
      PairDenotesKept(mem, mem', q + i * PAIR_SIZE, pairs[i], lo, hi, lo', hi');
    }
  }

  /** A structure stands for one value only. */
  lemma {:induction false} DenotesUnique(mem: seq<Cell>, p: nat, v: Value, w: Value, lo: nat, hi: nat)
    requires Denotes(mem, p, v, lo, hi) && Denotes(mem, p, w, lo, hi)
    ensures v == w
    decreases v
  {
    match v
    case Scalar(_) =>
    case String(s) => StringUnique(mem, mem[p].head.text, s, w.text);
    case Binary(data) =>
      var q := mem[p].head.data;
      forall i | 0 <= i < |data| ensures data[i] == w.data[i] {
        assert mem[q + i] == Byte(data[i]) && mem[q + i] == Byte(w.data[i]);
      }
    case Regex(s, _) => StringUnique(mem, mem[p].head.text, s, w.regex);
    case Sequence(values) =>
      forall i | 0 <= i < |values| ensures values[i] == w.values[i] {
        DenotesUnique(mem, mem[p].head.values + i * VALUE_SIZE, values[i], w.values[i], lo, hi);
      }
    case Map(pairs) => MapDenotesUnique(mem, mem[p].head.pairs, pairs, w.pairs, lo, hi);
  }

  lemma {:induction false} MapDenotesUnique(mem: seq<Cell>, q: nat, pairs: seq<Pair>, others: seq<Pair>, lo: nat, hi: nat)
    requires MapDenotes(mem, q, pairs, lo, hi) && MapDenotes(mem, q, others, lo, hi) && |pairs| == |others|
    ensures pairs == others
    decreases pairs
  {
    forall i | 0 <= i < |pairs| ensures pairs[i] == others[i] {
      var p := q + i * PAIR_SIZE;
      assert PairDenotes(mem, p, pairs[i], lo, hi) && PairDenotes(mem, p, others[i], lo, hi);
      StringUnique(mem, mem[p].key, pairs[i].key, others[i].key);
      if pairs[i].value.Some? {
        DenotesUnique(mem, mem[p].value.value, pairs[i].value.value, others[i].value.value, lo, hi);
      }
    }
  }

  /** Apart from the structure at `dest` and from `data` on up to `hi`, nothing changed. */
  ghost predicate Copied(before: seq<Cell>, after: seq<Cell>, dest: nat, data: nat, hi: nat) {
    |before| == |after| && forall i :: 0 <= i < |before| && i != dest && !(data <= i < hi) ==> after[i] == before[i]
  }

  /** Copying the next element leaves the earlier ones as they were. */
  lemma ElementCopied(m: seq<Cell>, m': seq<Cell>, q: nat, values: seq<Value>, k: nat, lo: nat, cur: nat, end: nat)
    requires k < |values| && q + |values| * VALUE_SIZE <= lo <= cur <= end
    requires ElementsDenote(m, q, values, k, lo, cur) && Copied(m, m', q + k * VALUE_SIZE, cur, end)
    requires Denotes(m', q + k * VALUE_SIZE, values[k], cur, end)
    ensures ElementsDenote(m', q, values, k + 1, lo, end)
  {
    forall j | 0 <= j < k + 1 ensures Denotes(m', q + j * VALUE_SIZE, values[j], lo, end) {
      if j < k {
        DenotesKept(m, m', q + j * VALUE_SIZE, values[j], lo, cur, lo, end);
      } else {
        DenotesKept(m', m', q + j * VALUE_SIZE, values[j], cur, end, lo, end);
      }
    }
  }

  lemma PairCopied(m: seq<Cell>, m': seq<Cell>, q: nat, pairs: seq<Pair>, k: nat, lo: nat, cur: nat, end: nat)
    requires k < |pairs| && q + |pairs| * PAIR_SIZE <= lo <= cur <= end
    requires PairsDenote(m, q, pairs, k, lo, cur) && Copied(m, m', q + k * PAIR_SIZE, cur, end)
    requires PairDenotes(m', q + k * PAIR_SIZE, pairs[k], cur, end)
    ensures PairsDenote(m', q, pairs, k + 1, lo, end)
  {
    forall j | 0 <= j < k + 1 ensures PairDenotes(m', q + j * PAIR_SIZE, pairs[j], lo, end) {
      if j < k {
        PairDenotesKept(m, m', q + j * PAIR_SIZE, pairs[j], lo, cur, lo, end);
      } else {
        PairDenotesKept(m', m', q + j * PAIR_SIZE, pairs[j], cur, end, lo, end);
      }
    }
  }

  /** All elements, in a wider range, after a change outside it. */
  lemma ElementsKept(m: seq<Cell>, m': seq<Cell>, q: nat, values: seq<Value>, lo: nat, hi: nat, lo': nat)
    requires ElementsDenote(m, q, values, |values|, lo, hi) && lo' <= lo && lo' <= q && q + |values| * VALUE_SIZE <= hi
    requires |m'| == |m| && forall i :: lo' <= i < hi && i < |m| ==> m'[i] == m[i]
    ensures ElementsDenote(m', q, values, |values|, lo', hi)
  {
    forall j | 0 <= j < |values| ensures Denotes(m', q + j * VALUE_SIZE, values[j], lo', hi) {
      DenotesKept(m, m', q + j * VALUE_SIZE, values[j], lo, hi, lo', hi);
    }
  }

  lemma PairsAreMap(m: seq<Cell>, q: nat, pairs: seq<Pair>, lo: nat, hi: nat, lo': nat)
    requires PairsDenote(m, q, pairs, |pairs|, lo, hi) && lo' <= lo && lo' <= q && q + |pairs| * PAIR_SIZE <= hi
    ensures MapDenotes(m, q, pairs, lo', hi)
  {
    forall j | 0 <= j < |pairs| ensures PairDenotes(m, q + j * PAIR_SIZE, pairs[j], lo', hi) {
      PairDenotesKept(m, m, q + j * PAIR_SIZE, pairs[j], lo, hi, lo', hi);
    }
  }

  // ------------------------------------------------------------------ the copy pass

  /** A string and the structure that points at it. */
  method TextCopy(mem: array<Cell>, dest: nat, v: Value, bytes: seq<byte>, head: ValueHead, data: nat, size: nat, ghost limit: nat)
    returns (ok: bool, data': nat, size': nat)
    requires limit <= mem.Length && dest + VALUE_SIZE <= data && dest + VALUE_SIZE <= mem.Length && size == Room(limit, data)
    requires match v
             case String(s) => bytes == Terminated(s) && head == StringHead(data)
             case Binary(b) => bytes == b && head == BinaryHead(data, |b|)
             case Regex(s, options) => bytes == Terminated(s) && head == RegexHead(data, options)
             case _ => false
    modifies mem
    ensures ok <==> |bytes| <= Room(limit, data)
    ensures ok ==> data' == End(v, data) && size' == Room(limit, data') && Denotes(mem[..], dest, v, data, data')
    ensures Copied(old(mem[..]), mem[..], dest, data, if ok then data' else mem.Length)
  {
    ok, data', size' := PutBytes(mem, bytes, data, size, limit);
    if ok {
      mem[dest] := ValueCell(head);
    }
  }

  /** Copies `v` to the structure at `dest`, what it points at from `data` on. It succeeds when
      all fits before `limit`; the copy then stands for `v`. */
  method ValueCopy(mem: array<Cell>, dest: nat, v: Value, data: nat, size: nat, ghost limit: nat)
    returns (ok: bool, data': nat, size': nat)
    requires limit <= mem.Length && dest + VALUE_SIZE <= data && dest + VALUE_SIZE <= mem.Length && size == Room(limit, data)
    modifies mem
    ensures End(v, data) <= limit ==> ok
    ensures ok ==> data' == End(v, data) && size' == Room(limit, data') && Denotes(mem[..], dest, v, data, data')
    ensures Copied(old(mem[..]), mem[..], dest, data, if ok then data' else mem.Length)
    decreases v
  {
    hide PairDenotes, PairEnd;
    match v
    case Scalar(s) =>
      mem[dest] := ValueCell(ScalarHead(s));
      return true, data, size;
    case String(s) =>
      ok, data', size' := TextCopy(mem, dest, v, Terminated(s), StringHead(data), data, size, limit);
    case Binary(bytes) =>
      ok, data', size' := TextCopy(mem, dest, v, bytes, BinaryHead(data, |bytes|), data, size, limit);
    case Regex(s, options) =>
      ok, data', size' := TextCopy(mem, dest, v, Terminated(s), RegexHead(data, options), data, size, limit);
    case Sequence(values) =>
      ok, data', size' := SequenceCopy(mem, values, data, size, limit);
      if ok {
        ghost var m := mem[..];
        mem[dest] := ValueCell(SequenceHead(Align(data), |values|));
        ElementsKept(m, mem[..], Align(data), values, data, data', data);
      }
    case Map(pairs) =>
      ok, data', size' := ValueMapCopy(mem, pairs, data, size, limit);
      if ok {
        ghost var m := mem[..];
        mem[dest] := ValueCell(MapHead(Align(data), |pairs|));
        MapDenotesKept(m, mem[..], Align(data), pairs, data, data', data, data');
      }
  }

  /** The elements of a sequence: their structures first, then what they point at. */
  method SequenceCopy(mem: array<Cell>, values: seq<Value>, data: nat, size: nat, ghost limit: nat)
    returns (ok: bool, data': nat, size': nat)
    requires limit <= mem.Length && size == Room(limit, data)
    modifies mem
    ensures End(Sequence(values), data) <= limit ==> ok
    ensures ok ==> data' == End(Sequence(values), data) && size' == Room(limit, data')
    ensures ok ==> Align(data) + |values| * VALUE_SIZE <= data' && ElementsDenote(mem[..], Align(data), values, |values|, data, data')
    ensures OnlyWrote(old(mem[..]), mem[..], data, if ok then data' else mem.Length)
    decreases values
  {
    hide Denotes;
    var n := |values| * VALUE_SIZE;
    var at;
    at, data', size' := AlignedAlloc(n, data, size, limit);
    if at.None? {
      return false, data, size;
    }
    var q := at.value;
    ghost var lo := q + n;
    for i := 0 to |values|
      invariant data' == SequenceEnd(values, lo, i) && size' == Room(limit, data')
      invariant ElementsDenote(mem[..], q, values, i, lo, data')
      invariant OnlyWrote(old(mem[..]), mem[..], data, data')
    {
      ghost var m := mem[..];
      ghost var cur := data';
      ok, data', size' := ValueCopy(mem, q + i * VALUE_SIZE, values[i], data', size', limit);
      if !ok {
        SequenceEndMonotone(values, lo, i + 1, |values|);
        return;
      }
      ElementCopied(m, mem[..], q, values, i, lo, cur, data');
    }
    ElementsKept(mem[..], mem[..], q, values, lo, data', data);
    ok := true;
  }

  lemma {:induction false} SequenceEndMonotone(values: seq<Value>, at: nat, i: nat, j: nat)
    requires i <= j <= |values|
    ensures SequenceEnd(values, at, i) <= SequenceEnd(values, at, j)
    decreases j
  {
    if i < j {
      SequenceEndMonotone(values, at, i, j - 1);
    }
  }

  lemma {:induction false} PairsEndMonotone(pairs: seq<Pair>, at: nat, i: nat, j: nat)
    requires i <= j <= |pairs|
    ensures PairsEnd(pairs, at, i) <= PairsEnd(pairs, at, j)
    decreases j
  {
    if i < j {
      PairsEndMonotone(pairs, at, i, j - 1);
    }
  }

  method ValuePairCopy(mem: array<Cell>, dest: nat, pair: Pair, data: nat, size: nat, ghost limit: nat)
    returns (ok: bool, data': nat, size': nat)
    requires limit <= mem.Length && dest + PAIR_SIZE <= data && dest + PAIR_SIZE <= mem.Length && size == Room(limit, data)
    modifies mem
    ensures PairEnd(pair, data) <= limit ==> ok
    ensures ok ==> data' == PairEnd(pair, data) && size' == Room(limit, data') && PairDenotes(mem[..], dest, pair, data, data')
    ensures Copied(old(mem[..]), mem[..], dest, data, if ok then data' else mem.Length)
    decreases pair
  {
    hide Denotes, End;
    ok, data', size' := PutBytes(mem, Terminated(pair.key), data, size, limit);
    if !ok {
      return;
    }
    if pair.value.None? {
      mem[dest] := PairCell(data, None);
      return;
    }
    var at;
    at, data', size' := AlignedAlloc(VALUE_SIZE, data', size', limit);
    if at.None? {
      return false, data, size;
    }
    ghost var lo := data';
    ok, data', size' := ValueCopy(mem, at.value, pair.value.value, data', size', limit);
    if !ok {
      return;
    }
    ghost var m := mem[..];
    mem[dest] := PairCell(data, at);
    DenotesKept(m, mem[..], at.value, pair.value.value, lo, data', data, data');
  }

  method ValueMapCopy(mem: array<Cell>, pairs: seq<Pair>, data: nat, size: nat, ghost limit: nat)
    returns (ok: bool, data': nat, size': nat)
    requires limit <= mem.Length && size == Room(limit, data)
    modifies mem
    ensures MapEnd(pairs, data) <= limit ==> ok
    ensures ok ==> data' == MapEnd(pairs, data) && size' == Room(limit, data') && MapDenotes(mem[..], Align(data), pairs, data, data')
    ensures OnlyWrote(old(mem[..]), mem[..], data, if ok then data' else mem.Length)
    decreases pairs
  {
    hide PairDenotes, PairEnd, Denotes;
    var n := |pairs| * PAIR_SIZE;
    var at;
    at, data', size' := AlignedAlloc(n, data, size, limit);
    if at.None? {
      return false, data, size;
    }
    var q := at.value;
    ghost var lo := q + n;
    for i := 0 to |pairs|
      invariant data' == PairsEnd(pairs, lo, i) && size' == Room(limit, data')
      invariant PairsDenote(mem[..], q, pairs, i, lo, data')
      invariant OnlyWrote(old(mem[..]), mem[..], data, data')
    {
      ghost var m := mem[..];
      ghost var cur := data';
      ok, data', size' := ValuePairCopy(mem, q + i * PAIR_SIZE, pairs[i], data', size', limit);
      if !ok {
        PairsEndMonotone(pairs, lo, i + 1, |pairs|);
        return;
      }
      PairCopied(m, mem[..], q, pairs, i, lo, cur, data');
    }
    PairsAreMap(mem[..], q, pairs, lo, data', data);
    ok := true;
  }

  /** One block holds the structure and all it points at: the copy never runs out of space, and
      stands for the value it was made from. */
  method ValueClone(v: Value) returns (block: array<Cell>)
    ensures fresh(block) && block.Length == VALUE_SIZE + DataSize(v, 0)
    ensures Denotes(block[..], 0, v, VALUE_SIZE, block.Length)
  {
    var size := ValueDataSize(v, 0);
    block := new Cell[VALUE_SIZE + size](_ => Blank);
    SizeDominates(v, VALUE_SIZE, 0, VALUE_SIZE);
    var ok, data', size' := ValueCopy(block, 0, v, VALUE_SIZE, size, block.Length);
    assert ok;
    DenotesKept(block[..], block[..], 0, v, VALUE_SIZE, data', VALUE_SIZE, block.Length);
  }
}
