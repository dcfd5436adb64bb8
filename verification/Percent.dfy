/** Percent-encoding, section 2.1 of RFC 3986: a byte stands for itself or is written as `%`
    and two hexadecimal digits.
 */
module Percent {
  import opened Wrappers

  const PERCENT: byte := 37

  function Hex(c: byte): Option<nat> {
    if 48 <= c <= 57 then Some(c as int - 48)
    else if 97 <= c <= 102 then Some(c as int - 97 + 10)
    else if 65 <= c <= 70 then Some(c as int - 65 + 10)
    else None
  }

  const LOWER: string := "0123456789abcdef"
  const UPPER: string := "0123456789ABCDEF"

  /** A digit is worth its place among the digits, in either case; nothing else is a digit. */
  lemma HexIsPlace(c: byte, d: nat)
    ensures Hex(c) == Some(d) <==> d < 16 && (c as int == LOWER[d] as int || c as int == UPPER[d] as int)
  {
  }

  /** Decodes `text`, of which at most `n` bytes are looked at. */
  function Decode(text: seq<byte>, n: nat): (r: Option<seq<byte>>)
    ensures r.Some? ==> |r.value| <= n && |r.value| <= |text|
    decreases |text|
  {
    if text == [] || n == 0 then Some([])
    else if text[0] != PERCENT then Cons(text[0], Decode(text[1..], n - 1))
    else if n < 3 || |text| < 3 || Hex(text[1]).None? || Hex(text[2]).None? then None
    else Cons((16 * Hex(text[1]).value + Hex(text[2]).value) as byte, Decode(text[3..], n - 3))
  }

  function Cons(b: byte, rest: Option<seq<byte>>): Option<seq<byte>> {
    if rest.Some? then Some([b] + rest.value) else None
  }

  // ------------------------------------------------------------------ what decoding undoes

  function Digit(d: nat): (c: byte)
    requires d < 16
    ensures Hex(c) == Some(d)
  {
    if d < 10 then (48 + d) as byte else (65 + d - 10) as byte
  }

  /** Encodes every byte that is not to be written as itself. */
  function Encode(bytes: seq<byte>, plain: byte -> bool): seq<byte> {
    if bytes == [] then []
    else
      var b := bytes[0];
      (if plain(b) then [b] else [PERCENT, Digit(b as int / 16), Digit(b as int % 16)]) + Encode(bytes[1..], plain)
  }

  lemma DecodeOfOne(b: byte, rest: seq<byte>, n: nat)
    ensures b != PERCENT && n > 0 ==> Decode([b] + rest, n) == Cons(b, Decode(rest, n - 1))
    ensures n >= 3 ==> Decode([PERCENT, Digit(b as int / 16), Digit(b as int % 16)] + rest, n) == Cons(b, Decode(rest, n - 3))
  {
    assert ([b] + rest)[1..] == rest;
    var text := [PERCENT, Digit(b as int / 16), Digit(b as int % 16)] + rest;
    assert text[3..] == rest;
    assert 16 * (b as int / 16) + b as int % 16 == b as int;
  }

  /** Whatever is encoded, decoding gives the bytes back. */
  lemma {:induction false} DecodeOfEncode(bytes: seq<byte>, plain: byte -> bool, n: nat)
    requires !plain(PERCENT) && n >= |Encode(bytes, plain)|
    ensures Decode(Encode(bytes, plain), n) == Some(bytes)
  {
    if bytes != [] {
      hide Decode, Digit;
      var b, rest := bytes[0], Encode(bytes[1..], plain);
      DecodeOfOne(b, rest, n);
      DecodeOfEncode(bytes[1..], plain, if plain(b) then n - 1 else n - 3);
      assert bytes == [b] + bytes[1..];
    }
  }

  /** Decoding is exact: `bytes` is the only reading of `text` in which every `%` is followed by
      two digits. */
  ghost predicate Reads(text: seq<byte>, bytes: seq<byte>)
    decreases |text|
  {
    if text == [] then bytes == []
    else if text[0] != PERCENT then bytes != [] && bytes[0] == text[0] && Reads(text[1..], bytes[1..])
    else
      && |text| >= 3 && bytes != [] && Hex(text[1]).Some? && Hex(text[2]).Some?
      && bytes[0] as int == 16 * Hex(text[1]).value + Hex(text[2]).value && Reads(text[3..], bytes[1..])
  }

  lemma {:induction false} DecodeReads(text: seq<byte>, bytes: seq<byte>, n: nat)
    requires n >= |text|
    ensures Decode(text, n) == Some(bytes) <==> Reads(text, bytes)
    decreases |text|
  {
    if text != [] {
      if text[0] != PERCENT {
        if bytes != [] {
          DecodeReads(text[1..], bytes[1..], n - 1);
          assert bytes == [bytes[0]] + bytes[1..];
        }
      } else if |text| >= 3 && Hex(text[1]).Some? && Hex(text[2]).Some? && bytes != [] {
        DecodeReads(text[3..], bytes[1..], n - 3);
        assert bytes == [bytes[0]] + bytes[1..];
      }
    }
  }

  // ------------------------------------------------------------------ in place

  /** A NUL-terminated string in a buffer. */
  ghost predicate StringAt(buffer: seq<byte>, at: nat, text: seq<byte>) {
    && at + |text| < |buffer| && 0 !in text
    && buffer[at..at + |text|] == text && buffer[at + |text|] == 0
  }

  /** The next byte, encoded or not. */
  method ReadOne(buffer: array<byte>, at: nat, n: nat, ghost src: nat, ghost text: seq<byte>)
    returns (c: Option<byte>, s: nat, left: nat)
    requires n > 0 && src <= at < src + |text| < buffer.Length && buffer[src + |text|] == 0
    requires forall i | at <= i < src + |text| :: buffer[i] == text[i - src]
    ensures c.None? ==> Decode(text[at - src..], n).None?
    ensures c.Some? ==> at < s <= src + |text| && s - at == n - left
    ensures c.Some? ==> Decode(text[at - src..], n) == Cons(c.value, Decode(text[s - src..], left))
  {
    hide Decode;
    DecodeStep(text, at - src, n);
    left := n - 1;
    s := at + 1;
    if buffer[at] != PERCENT {
      return Some(buffer[at]), s, left;
    }
    if left < 2 {
      return None, s, left;
    }
    left := left - 2;
    var major := Hex(buffer[s]);
    if major.None? {
      return None, s, left;
    }
    s := s + 1;
    var minor := Hex(buffer[s]);
    if minor.None? {
      return None, s, left;
    }
    s := s + 1;
    return Some((16 * major.value + minor.value) as byte), s, left;
  }

  /** Decodes the string at `src` to `dest`. The two may overlap as long as `dest` is not after
      `src`: nothing is written that is still to be read. */
  method PercentDecode(buffer: array<byte>, dest: nat, src: nat, n: nat, ghost text: seq<byte>) returns (count: Option<nat>)
    requires StringAt(buffer[..], src, text)
    requires dest <= src || src + |text| < dest
    requires dest + (if n <= |text| then n else |text|) <= buffer.Length
    modifies buffer
    ensures count.Some? <==> Decode(text, n).Some?
    ensures count.Some? ==> count.value == |Decode(text, n).value| && dest + count.value <= buffer.Length
    ensures count.Some? ==> buffer[dest..dest + count.value] == Decode(text, n).value
    ensures forall i | 0 <= i < buffer.Length && !(dest <= i < dest + (if n <= |text| then n else |text|)) :: buffer[i] == old(buffer[i])
  {
    hide Decode, Cons, StringAt, Written, Prefixed;
    var left := n;
    var s, d := src, dest;
    ghost var done: seq<byte> := [];
    NothingYet(buffer[..], text, n, dest);
    InBuffer(buffer[..], src, text);
    while buffer[s] != 0 && left > 0
      invariant src <= s <= src + |text| && s - src + left == n && dest <= d && d - dest == |done| <= s - src
      invariant Written(old(buffer[..]), buffer[..], dest, d, done)
      invariant Prefixed(done, Decode(text[s - src..], left)) == Decode(text, n)
      decreases left
    {
      Unread(old(buffer[..]), buffer[..], src, text, dest, d, s, done);
      var c;
      ghost var rest := Decode(text[s - src..], left);
      c, s, left := ReadOne(buffer, s, left, src, text);
      if c.None? {
        NotPrefixed(done, rest);
        WrittenWithin(old(buffer[..]), buffer[..], dest, d, done, if n <= |text| then n else |text|);
        return None;
      }
      PrefixedMore(done, c.value, Decode(text[s - src..], left));
      WrittenMore(old(buffer[..]), buffer[..], dest, d, done, c.value);
      ghost var before := buffer[..];
      buffer[d] := c.value;
      assert buffer[..] == before[d := c.value];
      d := d + 1;
      done := done + [c.value];
    }
    Unread(old(buffer[..]), buffer[..], src, text, dest, d, s, done);
    DecodeEnds(done, text, s - src, left);
    WrittenWithin(old(buffer[..]), buffer[..], dest, d, done, if n <= |text| then n else |text|);
    return Some(d - dest);
  }

  /** The bytes `done` were written from `dest` on, and nothing else. */
  ghost predicate Written(before: seq<byte>, after: seq<byte>, dest: nat, d: nat, done: seq<byte>) {
    && |after| == |before| && dest <= d <= |after| && after[dest..d] == done
    && forall i | 0 <= i < |before| && !(dest <= i < d) :: after[i] == before[i]
  }

  lemma NothingYet(buffer: seq<byte>, text: seq<byte>, n: nat, dest: nat)
    requires dest <= |buffer|
    ensures Written(buffer, buffer, dest, dest, []) && Prefixed([], Decode(text[0..], n)) == Decode(text, n)
  {
    assert text[0..] == text;
    PrefixedByNone(Decode(text, n));
  }

  lemma WrittenMore(before: seq<byte>, after: seq<byte>, dest: nat, d: nat, done: seq<byte>, c: byte)
    requires Written(before, after, dest, d, done) && d < |after|
    ensures Written(before, after[d := c], dest, d + 1, done + [c])
  {
    assert after[d := c][dest..d + 1] == after[dest..d] + [c];
  }

  lemma WrittenWithin(before: seq<byte>, after: seq<byte>, dest: nat, d: nat, done: seq<byte>, size: nat)
    requires Written(before, after, dest, d, done) && d <= dest + size
    ensures |after| == |before| && d <= |after| && after[dest..d] == done
    ensures forall i | 0 <= i < |before| && !(dest <= i < dest + size) :: after[i] == before[i]
  {
  }

  lemma NotPrefixed(done: seq<byte>, rest: Option<seq<byte>>)
    ensures rest.None? ==> Prefixed(done, rest).None?
  {
  }

  /** What is still to be read was not written over. */
  lemma Unread(before: seq<byte>, after: seq<byte>, src: nat, text: seq<byte>, dest: nat, d: nat, s: nat, done: seq<byte>)
    requires StringAt(before, src, text) && Written(before, after, dest, d, done) && src <= s <= src + |text|
    requires (dest <= src && d - dest <= s - src) || src + |text| < dest
    ensures |after| > src + |text|
    ensures forall i | s <= i < src + |text| :: after[i] == text[i - src] && after[i] != 0
    ensures after[src + |text|] == 0
  {
    forall i | s <= i < src + |text| ensures after[i] == text[i - src] && text[i - src] in text {
      assert before[src..src + |text|][i - src] == text[i - src];
    }
  }

  lemma DecodeStep(text: seq<byte>, k: nat, left: nat)
    requires k < |text| && left > 0
    ensures text[k] != PERCENT ==> Decode(text[k..], left) == Cons(text[k], Decode(text[k + 1..], left - 1))
    ensures text[k] == PERCENT && (left < 3 || k + 2 >= |text|) ==> Decode(text[k..], left).None?
    ensures text[k] == PERCENT && k + 1 < |text| && Hex(text[k + 1]).None? ==> Decode(text[k..], left).None?
    ensures text[k] == PERCENT && k + 2 < |text| && Hex(text[k + 2]).None? ==> Decode(text[k..], left).None?
    ensures text[k] == PERCENT && left >= 3 && k + 2 < |text| && Hex(text[k + 1]).Some? && Hex(text[k + 2]).Some? ==>
              Decode(text[k..], left) ==
              Cons((16 * Hex(text[k + 1]).value + Hex(text[k + 2]).value) as byte, Decode(text[k + 3..], left - 3))
  {
    var rest := text[k..];
    assert rest[1..] == text[k + 1..];
    if |rest| >= 3 {
      assert rest[3..] == text[k + 3..];
    }
  }

  lemma InBuffer(buffer: seq<byte>, src: nat, text: seq<byte>)
    requires StringAt(buffer, src, text)
    ensures src + |text| < |buffer|
  {
  }

  lemma DecodeEnds(done: seq<byte>, text: seq<byte>, k: nat, left: nat)
    requires k == |text| || (k < |text| && left == 0)
    ensures Prefixed(done, Decode(text[k..], left)) == Some(done)
  {
    assert done + [] == done;
  }

  lemma PrefixedByNone(rest: Option<seq<byte>>)
    ensures Prefixed([], rest) == rest
  {
    if rest.Some? {
      assert [] + rest.value == rest.value;
    }
  }

  lemma PrefixedMore(done: seq<byte>, c: byte, rest: Option<seq<byte>>)
    ensures Prefixed(done, Cons(c, rest)) == Prefixed(done + [c], rest)
  {
    if rest.Some? {
      assert done + ([c] + rest.value) == done + [c] + rest.value;
    }
  }

  function Prefixed(done: seq<byte>, rest: Option<seq<byte>>): Option<seq<byte>> {
    if rest.Some? then Some(done + rest.value) else None
  }
}
