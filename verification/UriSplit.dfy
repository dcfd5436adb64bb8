/** Splitting a URI in place: one copy of the string is cut into NUL-terminated components. */
module UriSplit {
  import opened Wrappers
  import opened Percent
  import opened Uri

  /** What a `struct rbh_raw_uri` holds: positions in the copy. Without a slash after the
      authority, the path is the empty string constant. */
  datatype Pointers = Pointers(
    scheme: nat, userinfo: Option<nat>, host: Option<nat>, port: Option<nat>, path: Option<nat>, query: Option<nat>, fragment: Option<nat>)

  ghost predicate OptionAt(buffer: seq<byte>, at: Option<nat>, text: Option<Text>) {
    (at.Some? <==> text.Some?) && (text.Some? ==> StringAt(buffer, at.value, text.value))
  }

  ghost predicate AuthorityAt(buffer: seq<byte>, p: Pointers, a: Option<Authority>) {
    && (p.host.Some? <==> a.Some?)
    && (a.Some? ==>
          && StringAt(buffer, p.host.value, a.value.host)
          && OptionAt(buffer, p.userinfo, a.value.userinfo) && OptionAt(buffer, p.port, a.value.port))
    && (a.None? ==> p.userinfo.None? && p.port.None?)
  }

  /** The components lie where the pointers say. */
  ghost predicate SplitAt(buffer: seq<byte>, p: Pointers, u: RawUri) {
    && StringAt(buffer, p.scheme, u.scheme) && AuthorityAt(buffer, p, u.authority)
    && (if p.path.Some? then StringAt(buffer, p.path.value, u.path) else u.path == [])
    && OptionAt(buffer, p.query, u.query) && OptionAt(buffer, p.fragment, u.fragment)
  }

  /** A string stays where it is while its bytes do. */
  lemma StringKept(before: seq<byte>, after: seq<byte>, at: nat, text: Text)
    requires StringAt(before, at, text) && |after| == |before|
    requires forall i | at <= i <= at + |text| :: after[i] == before[i]
    ensures StringAt(after, at, text)
  {
    assert after[at..at + |text|] == before[at..at + |text|];
  }

  lemma CharAt(buffer: seq<byte>, at: nat, text: Text, k: nat)
    requires StringAt(buffer, at, text) && k <= |text|
    ensures at + |text| < |buffer|
    ensures k < |text| ==> buffer[at + k] == text[k] && text[k] != 0
    ensures k == |text| ==> buffer[at + k] == 0
  {
    if k < |text| {
      assert buffer[at..at + |text|][k] == text[k] && text[k] in text;
    }
  }

  /** strchr. */
  method FindFirst(buffer: array<byte>, at: nat, c: byte, ghost text: Text) returns (k: Option<nat>)
    requires StringAt(buffer[..], at, text) && c != 0
    ensures k.Some? <==> First(text, c) < |text|
    ensures k.Some? ==> k.value == at + First(text, c)
  {
    hide StringAt, First;
    var i := 0;
    CharAt(buffer[..], at, text, 0);
    while buffer[at + i] != 0
      invariant i <= |text| && at + |text| < buffer.Length && (forall j | 0 <= j < i :: text[j] != c)
      decreases |text| - i
    {
      CharAt(buffer[..], at, text, i);
      if buffer[at + i] == c {
        FirstIs(text, i, c);
        return Some(at + i);
      }
      i := i + 1;
    }
    CharAt(buffer[..], at, text, i);
    FirstIs(text, i, c);
    return None;
  }

  /** strrchr. */
  method FindLast(buffer: array<byte>, at: nat, c: byte, ghost text: Text) returns (k: Option<nat>)
    requires StringAt(buffer[..], at, text) && c != 0
    ensures k.Some? <==> Last(text, c) < |text|
    ensures k.Some? ==> k.value == at + Last(text, c)
  {
    hide StringAt, Last;
    var i := 0;
    k := None;
    CharAt(buffer[..], at, text, 0);
    while buffer[at + i] != 0
      invariant i <= |text| && at + |text| < buffer.Length
      invariant k.None? ==> forall j | 0 <= j < i :: text[j] != c
      invariant k.Some? ==> at <= k.value < at + i && text[k.value - at] == c && forall j | k.value - at < j < i :: text[j] != c
      decreases |text| - i
    {
      CharAt(buffer[..], at, text, i);
      if buffer[at + i] == c {
        k := Some(at + i);
      }
      i := i + 1;
    }
    CharAt(buffer[..], at, text, i);
    LastIs(text, if k.Some? then k.value - at else |text|, c);
  }

  /** Only what lies in `lo..hi` changed. */
  ghost predicate Within(before: seq<byte>, after: seq<byte>, lo: nat, hi: nat) {
    |after| == |before| && forall i | 0 <= i < |before| && !(lo <= i < hi) :: after[i] == before[i]
  }

  lemma TerminatedHere(before: seq<byte>, after: seq<byte>, at: nat, text: Text, k: nat)
    requires StringAt(before, at, text) && k < |text| && |after| == |before| && after == before[at + k := 0]
    ensures StringAt(after, at, text[..k]) && StringAt(after, at + k + 1, text[k + 1..])
  {
    assert after[at..at + k] == before[at..at + |text|][..k];
    assert after[at + k + 1..at + |text|] == before[at..at + |text|][k + 1..];
  }

  /** Overwrites a separator with a terminator. */
  method Terminate(buffer: array<byte>, at: nat, position: Option<nat>, ghost text: Text, ghost k: nat) returns (after: Option<nat>)
    requires StringAt(buffer[..], at, text) && k <= |text|
    requires (position.Some? <==> k < |text|) && (position.Some? ==> position.value == at + k)
    modifies buffer
    ensures StringAt(buffer[..], at, CutAt(text, k).before) && OptionAt(buffer[..], after, CutAt(text, k).after)
    ensures after.Some? ==> after.value == at + k + 1
    ensures Within(old(buffer[..]), buffer[..], at, at + |text|)
  {
    if position.None? {
      return None;
    }
    CharAt(buffer[..], at, text, k);
    TerminatedHere(buffer[..], buffer[..][at + k := 0], at, text, k);
    buffer[position.value] := 0;
    assert buffer[..] == old(buffer[..])[at + k := 0];
    return Some(position.value + 1);
  }

  /** memmove. */
  method MoveDown(buffer: array<byte>, dest: nat, src: nat, n: nat)
    requires dest <= src && src + n <= buffer.Length
    modifies buffer
    ensures buffer[dest..dest + n] == old(buffer[src..src + n])
    ensures Within(old(buffer[..]), buffer[..], dest, dest + n)
  {
    for k := 0 to n
      invariant buffer[dest..dest + k] == old(buffer[src..src + k])
      invariant Within(old(buffer[..]), buffer[..], dest, dest + k)
    {
      assert buffer[..][src + k] == old(buffer[..])[src + k];
      buffer[dest + k] := buffer[src + k];
    }
  }

  lemma PartOf(buffer: seq<byte>, at: nat, text: Text, i: nat, j: nat)
    requires StringAt(buffer, at, text) && i <= j <= |text|
    ensures at + |text| < |buffer| && buffer[at + |text|] == 0 && buffer[at + i..at + j] == text[i..j] && 0 !in text[i..j]
  {
    forall k | 0 <= k < j - i ensures buffer[at + i..at + j][k] == text[i..j][k] {
      assert buffer[at..at + |text|][i + k] == text[i + k];
    }
    forall b | b in text[i..j] ensures b in text {
      var k :| 0 <= k < j - i && text[i..j][k] == b;
      assert text[i + k] == b;
    }
  }

  lemma IsString(buffer: seq<byte>, at: nat, text: Text)
    requires at + |text| < |buffer| && 0 !in text && buffer[at..at + |text|] == text && buffer[at + |text|] == 0
    ensures StringAt(buffer, at, text)
  {
  }

  lemma Shifted(before: seq<byte>, after: seq<byte>, at: nat, text: Text, k: nat)
    requires StringAt(before, at, text) && 2 + k < |text| && Within(before, after, at, at + 2 + k)
    requires at + 2 + k <= |after| && after[at..at + k] == before[at + 2..at + 2 + k] && after[at + k] == 0
    ensures StringAt(after, at, text[2..2 + k]) && StringAt(after, at + 2 + k, text[2 + k..])
  {
    hide StringAt;
    PartOf(before, at, text, 2, 2 + k);
    PartOf(before, at, text, 2 + k, |text|);
    IsString(after, at, text[2..2 + k]);
    assert after[at + 2 + k..at + |text|] == before[at + 2 + k..at + |text|];
    assert text[2 + k..|text|] == text[2 + k..];
    IsString(after, at + 2 + k, text[2 + k..]);
  }

  /** The slash of the path cannot be overwritten; the authority moves over the two slashes in
      front of it instead. */
  method ShiftAuthority(buffer: array<byte>, at: nat, slash: nat, ghost text: Text, ghost k: nat)
    requires StringAt(buffer[..], at, text) && 2 + k < |text| && slash == at + 2 + k
    modifies buffer
    ensures StringAt(buffer[..], at, text[2..][..k]) && StringAt(buffer[..], slash, text[2..][k..])
    ensures Within(old(buffer[..]), buffer[..], at, slash)
  {
    hide StringAt;
    ghost var before := buffer[..];
    CharAt(before, at, text, 0);
    MoveDown(buffer, at, at + 2, slash - at - 2);
    ghost var moved := buffer[..];
    buffer[slash - 2] := 0;
    buffer[slash - 1] := 0;
    assert buffer[..] == moved[at + k := 0][at + k + 1 := 0];
    assert buffer[..][at..at + k] == moved[at..at + k] == before[at + 2..at + 2 + k];
    Shifted(before, buffer[..], at, text, k);
    assert text[2..][..k] == text[2..2 + k] && text[2..][k..] == text[2 + k..];
  }

  // ------------------------------------------------------------------ the whole URI

  method CopyString(s: Text) returns (buffer: array<byte>)
    requires 0 !in s
    ensures fresh(buffer) && buffer.Length == |s| + 1 && StringAt(buffer[..], 0, s)
  {
    buffer := new byte[|s| + 1](i requires 0 <= i <= |s| => if i < |s| then s[i] else 0);
    assert buffer[..][0..|s|] == s;
  }

  method SchemeEnd(buffer: array<byte>, ghost s: Text) returns (n: nat)
    requires StringAt(buffer[..], 0, s) && s != [] && Alpha(s[0])
    ensures n == SchemeRun(s)
  {
    hide StringAt;
    n := 1;
    CharAt(buffer[..], 0, s, 1);
    while SchemeChar(buffer[n])
      invariant 1 <= n <= |s| < buffer.Length && forall i | 0 <= i < n :: SchemeChar(s[i])
      decreases |s| - n
    {
      CharAt(buffer[..], 0, s, n);
      n := n + 1;
      CharAt(buffer[..], 0, s, n);
    }
    CharAt(buffer[..], 0, s, n);
    SchemeRunEnds(s, n);
  }

  lemma SchemeRunEnds(s: Text, n: nat)
    requires n <= |s| && (forall i | 0 <= i < n :: SchemeChar(s[i])) && (n < |s| ==> !SchemeChar(s[n]))
    ensures SchemeRun(s) == n
  {
    if n < |s| {
      SchemeRunIs(s, n);
    }
  }

  /** Cuts `[userinfo@]host[:port]`. */
  method SplitAuthority(buffer: array<byte>, at: nat, ghost text: Text, p: Pointers) returns (q: Pointers)
    requires StringAt(buffer[..], at, text) && p.userinfo.None? && p.host.None? && p.port.None?
    modifies buffer
    ensures AuthorityAt(buffer[..], q, Some(ParseAuthority(text))) && Within(old(buffer[..]), buffer[..], at, at + |text|)
    ensures q == p.(userinfo := q.userinfo, host := q.host, port := q.port)
  {
    hide StringAt, First, Last;
    q := p;
    var position := FindFirst(buffer, at, AT, text);
    ghost var user := CutAt(text, First(text, AT));
    var after := Terminate(buffer, at, position, text, First(text, AT));
    var start := at;
    ghost var hostport := text;
    if after.Some? {
      q := q.(userinfo := Some(at));
      start, hostport := after.value, user.after.value;
    }
    ghost var middle := buffer[..];
    ghost var host := CutAt(hostport, Last(hostport, COLON));
    position := FindLast(buffer, start, COLON, hostport);
    after := Terminate(buffer, start, position, hostport, Last(hostport, COLON));
    q := q.(port := after, host := Some(start));
    if q.userinfo.Some? {
      StringKept(middle, buffer[..], at, user.before);
    }
  }

  /** Cuts `[//authority]path`. */
  method SplitHierarchy(buffer: array<byte>, at: nat, ghost text: Text, p: Pointers) returns (q: Pointers)
    requires StringAt(buffer[..], at, text) && p.userinfo.None? && p.host.None? && p.port.None?
    modifies buffer
    ensures AuthorityAt(buffer[..], q, Hierarchy(text).0) && Within(old(buffer[..]), buffer[..], at, at + |text|)
    ensures if q.path.Some? then StringAt(buffer[..], q.path.value, Hierarchy(text).1) else Hierarchy(text).1 == []
    ensures q == p.(userinfo := q.userinfo, host := q.host, port := q.port, path := q.path)
  {
    hide StringAt, First, Last, ParseAuthority;
    CharAt(buffer[..], at, text, 0);
    if |text| > 0 {
      CharAt(buffer[..], at, text, 1);
    }
    if buffer[at] != SLASH || buffer[at + 1] != SLASH {
      return p.(path := Some(at));
    }
    ghost var k := First(text[2..], SLASH);
    Tail(buffer[..], at, text);
    var slash := FindFirst(buffer, at + 2, SLASH, text[2..]);
    if slash.Some? {
      ShiftAuthority(buffer, at, slash.value, text, k);
      ghost var middle := buffer[..];
      q := SplitAuthority(buffer, at, text[2..][..k], p.(path := Some(slash.value)));
      StringKeptBehind(middle, buffer[..], slash.value, text[2..][k..], at + k);
    } else {
      assert text[2..][..k] == text[2..];
      q := SplitAuthority(buffer, at + 2, text[2..], p.(path := None));
    }
  }

  lemma Tail(buffer: seq<byte>, at: nat, text: Text)
    requires StringAt(buffer, at, text) && |text| >= 2
    ensures StringAt(buffer, at + 2, text[2..])
  {
    assert buffer[at + 2..at + |text|] == buffer[at..at + |text|][2..];
  }

  lemma StringKeptBehind(before: seq<byte>, after: seq<byte>, at: nat, text: Text, end: nat)
    requires StringAt(before, at, text) && end <= at && |after| == |before|
    requires forall i | end <= i < |before| :: after[i] == before[i]
    ensures StringAt(after, at, text)
  {
    StringKept(before, after, at, text);
  }

  /** The components behind the scheme. */
  ghost predicate RestAt(buffer: seq<byte>, p: Pointers, rest: Text) {
    var f := CutAt(rest, Last(rest, POUND));
    var q := CutAt(f.before, Last(f.before, QUESTION));
    && AuthorityAt(buffer, p, Hierarchy(q.before).0)
    && (if p.path.Some? then StringAt(buffer, p.path.value, Hierarchy(q.before).1) else Hierarchy(q.before).1 == [])
    && OptionAt(buffer, p.query, q.after) && OptionAt(buffer, p.fragment, f.after)
  }

  /** Cuts `[//authority]path[?query][#fragment]`. */
  method SplitRest(buffer: array<byte>, at: nat, ghost rest: Text) returns (p: Pointers)
    requires StringAt(buffer[..], at, rest)
    modifies buffer
    ensures RestAt(buffer[..], p, rest) && p.scheme == 0 && Within(old(buffer[..]), buffer[..], at, at + |rest|)
  {
    hide StringAt, Last, Hierarchy, AuthorityAt;
    var position := FindLast(buffer, at, POUND, rest);
    var fragment := Terminate(buffer, at, position, rest, Last(rest, POUND));
    ghost var b2, f := buffer[..], CutAt(rest, Last(rest, POUND));
    position := FindLast(buffer, at, QUESTION, f.before);
    var query := Terminate(buffer, at, position, f.before, Last(f.before, QUESTION));
    ghost var b3, q := buffer[..], CutAt(f.before, Last(f.before, QUESTION));
    p := SplitHierarchy(buffer, at, q.before, Pointers(0, None, None, None, None, query, fragment));
    if fragment.Some? {
      StringKeptBehind(b2, buffer[..], fragment.value, f.after.value, at + |f.before|);
    }
    if query.Some? {
      StringKeptBehind(b3, buffer[..], query.value, q.after.value, at + |q.before|);
    }
  }

  /** Refused exactly when there is no scheme and colon; otherwise the pieces of the copy are the
      components of the URI. */
  method RawUriFromString(s: Text) returns (buffer: array<byte>, p: Option<Pointers>)
    requires 0 !in s
    ensures p.Some? <==> Parse(s).Some?
    ensures p.Some? ==> fresh(buffer) && buffer.Length == |s| + 1 && SplitAt(buffer[..], p.value, Parse(s).value)
  {
    hide StringAt, Last, SchemeRun, Hierarchy, RestAt;
    buffer := CopyString(s);
    CharAt(buffer[..], 0, s, 0);
    if !Alpha(buffer[0]) {
      return buffer, None;
    }
    var n := SchemeEnd(buffer, s);
    CharAt(buffer[..], 0, s, n);
    if buffer[n] != COLON {
      return buffer, None;
    }
    var start := Terminate(buffer, 0, Some(n), s, n);
    ghost var b1 := buffer[..];
    var r := SplitRest(buffer, n + 1, s[n + 1..]);
    StringKept(b1, buffer[..], 0, s[..n]);
    Assembled(buffer[..], r, s);
    return buffer, Some(r);
  }

  lemma Assembled(buffer: seq<byte>, p: Pointers, s: Text)
    requires Parse(s).Some? && p.scheme == 0 && StringAt(buffer, 0, s[..SchemeRun(s)]) && RestAt(buffer, p, s[SchemeRun(s) + 1..])
    ensures SplitAt(buffer, p, Parse(s).value)
  {
    hide StringAt, Last, SchemeRun, Hierarchy, AuthorityAt;
  }
}
