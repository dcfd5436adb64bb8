/** Interpreting the components of a URI: one pass computes the size of the block, another fills
    it with decoded strings.

    The strings of the raw URI lie below `base`, where the block starts.
 */
module UriBuild {
  import opened Wrappers
  import opened Memory
  import opened Percent
  import opened Uri
  import opened UriSplit

  const AUTHORITY_SIZE: nat := 32 // sizeof(struct rbh_uri_authority)
  const ID_STRUCT: nat := 16      // sizeof(struct rbh_id)
  const LUSTRE_ID_SIZE: nat := 38
  const SIZE_MAX: nat := 0xFFFF_FFFF_FFFF_FFFF
  const OPEN: byte := 91
  const CLOSE: byte := 93
  const SCHEME: Text := [114, 98, 104] // "rbh"

  /** The components that matter here; an absent one is a null pointer. */
  datatype Raw = Raw(scheme: Text, userinfo: Option<Text>, host: Option<Text>, port: Option<Text>, path: Text, fragment: Option<Text>)

  /** Library functions: a port number, and the identifier of an encoded Lustre FID. */
  datatype Library = Library(port: Text -> Option<nat>, fid: Text -> Option<Text>)

  // ------------------------------------------------------------------ what a URI means

  datatype AuthorityValue = AuthorityValue(username: Text, password: Text, host: Text, port: nat)

  datatype Target = Bare | Entry(id: Text) | Path(path: Text)

  datatype UriValue = UriValue(authority: Option<AuthorityValue>, backend: Text, fsname: Text, target: Target)

  /** What is left of some bytes when they are read as a string. */
  function CStr(bytes: Text): Text {
    bytes[..First(bytes, 0)]
  }

  function Stripped(bytes: Text): Text {
    if bytes != [] && bytes[|bytes| - 1] == SLASH then bytes[..|bytes| - 1] else bytes
  }

  predicate HasAuthority(u: Raw) {
    u.userinfo.Some? || u.host.Some? || u.port.Some?
  }

  predicate IsId(f: Text) {
    |f| >= 2 && f[0] == OPEN && f[|f| - 1] == CLOSE
  }

  predicate IsFid(f: Text)
    requires IsId(f)
  {
    var inner := f[1..|f| - 1];
    var k := First(inner, COLON);
    k < |inner| && First(inner[k + 1..], COLON) < |inner| - k - 1
  }

  function PortOf(u: Raw, library: Library): Option<nat> {
    if u.port.None? then Some(0) else library.port(u.port.value)
  }

  function AuthorityOf(u: Raw, port: nat): AuthorityValue {
    var user := if u.userinfo.Some? then CutAt(u.userinfo.value, First(u.userinfo.value, COLON)) else Cut([], None);
    AuthorityValue(user.before, if user.after.Some? then user.after.value else [], if u.host.Some? then u.host.value else [], port)
  }

  function TargetOf(u: Raw, library: Library): Option<Target> {
    if u.fragment.None? then Some(Bare)
    else
      var f := u.fragment.value;
      if IsId(f) then
        var id := if IsFid(f) then library.fid(f) else Decode(f[1..], |f| - 2);
        if id.Some? then Some(Entry(id.value)) else None
      else if Decode(f, |f|).Some? then Some(Path(CStr(Decode(f, |f|).value)))
      else None
  }

  /** Where the backend is in the path, and how long it is. */
  function BackendStart(path: Text): nat {
    if path != [] && path[0] == SLASH then 1 else 0
  }

  function Interpret(u: Raw, library: Library): Option<UriValue> {
    var colon := First(u.path, COLON);
    if u.scheme != SCHEME || colon == |u.path| || (HasAuthority(u) && PortOf(u, library).None?) then None
    else
      var start := BackendStart(u.path);
      var backend := Decode(u.path[start..], colon - start);
      var fsname := Decode(u.path[colon + 1..], |u.path| - colon - 1);
      var target := TargetOf(u, library);
      if backend.None? || fsname.None? || target.None? then None
      else
        Some(UriValue(
          if HasAuthority(u) then Some(AuthorityOf(u, PortOf(u, library).value)) else None,
          CStr(backend.value), CStr(Stripped(fsname.value)), target.value))
  }

  // ------------------------------------------------------------------ the size pass

  function AuthoritySize(u: Raw): nat {
    (if HasAuthority(u) then AUTHORITY_SIZE else 0)
    + (if u.userinfo.Some? then |u.userinfo.value| + (if First(u.userinfo.value, COLON) < |u.userinfo.value| then 2 else 1) else 0)
    + (if u.host.Some? then |u.host.value| + 1 else 0)
  }

  function UriSize(u: Raw): nat {
    var size := AuthoritySize(u) + |u.path| + 1;
    if u.fragment.None? then size
    else
      var f := u.fragment.value;
      if IsId(f) then Align(size) + ID_STRUCT + (if IsFid(f) then LUSTRE_ID_SIZE else |f| - 1)
      else size + |f| + 1
  }

  // ------------------------------------------------------------------ strings in the block

  /** The string at `at` is what is read up to the first NUL. */
  lemma CStrAt(buffer: seq<byte>, at: nat, bytes: Text)
    requires at + |bytes| < |buffer| && buffer[at..at + |bytes|] == bytes && buffer[at + |bytes|] == 0
    ensures StringAt(buffer, at, CStr(bytes))
  {
    var k := First(bytes, 0);
    assert buffer[at..at + k] == bytes[..k];
    if k < |bytes| {
      assert buffer[at..at + |bytes|][k] == 0;
    }
  }

  /** Copies a string with its terminator. */
  method PutString(memory: array<byte>, src: nat, data: nat, size: nat, ghost limit: nat, ghost text: Text)
    returns (data': nat, size': nat)
    requires StringAt(memory[..], src, text) && src + |text| < data
    requires limit <= memory.Length && size == Room(limit, data) && data + |text| < limit
    modifies memory
    ensures StringAt(memory[..], data, text) && data' == data + |text| + 1 && size' == Room(limit, data')
    ensures UriSplit.Within(old(memory[..]), memory[..], data, data')
  {
    hide StringAt;
    var length := StrLen(memory, src, text);
    assert length < size;
    CopyUp(memory, data, src, length + 1, text);
    return data + length + 1, size - (length + 1);
  }

  method StrLen(memory: array<byte>, src: nat, ghost text: Text) returns (length: nat)
    requires StringAt(memory[..], src, text)
    ensures length == |text|
  {
    hide StringAt;
    length := 0;
    CharAt(memory[..], src, text, 0);
    while memory[src + length] != 0
      invariant length <= |text|
      decreases |text| - length
    {
      CharAt(memory[..], src, text, length);
      length := length + 1;
      CharAt(memory[..], src, text, length);
    }
    CharAt(memory[..], src, text, length);
  }

  /** memcpy of a string, upwards. */
  method CopyUp(memory: array<byte>, dest: nat, src: nat, n: nat, ghost text: Text)
    requires StringAt(memory[..], src, text) && n == |text| + 1 && src + n <= dest && dest + n <= memory.Length
    modifies memory
    ensures StringAt(memory[..], dest, text) && UriSplit.Within(old(memory[..]), memory[..], dest, dest + n)
  {
    for k := 0 to n
      invariant memory[dest..dest + k] == old(memory[src..src + k])
      invariant UriSplit.Within(old(memory[..]), memory[..], dest, dest + k)
    {
      assert memory[..][src + k] == old(memory[..])[src + k];
      memory[dest + k] := memory[src + k];
    }
    ghost var all := memory[dest..dest + n];
    assert all == old(memory[src..src + n]);
    assert memory[..][dest..dest + |text|] == all[..|text|] == old(memory[..])[src..src + |text|];
    assert memory[dest + |text|] == all[|text|];
  }

  /** Decodes a string, or a part of one, and terminates it. */
  method DecodeString(memory: array<byte>, src: nat, n: nat, data: nat, size: nat, ghost limit: nat, ghost text: Text)
    returns (count: Option<nat>, data': nat, size': nat)
    requires StringAt(memory[..], src, text) && src + |text| < data
    requires limit <= memory.Length && size == Room(limit, data) && data + (if n <= |text| then n else |text|) < limit
    modifies memory
    ensures count.Some? <==> Decode(text, n).Some?
    ensures count.Some? ==> count.value == |Decode(text, n).value| && data' == data + count.value + 1 && size' == Room(limit, data')
    ensures count.Some? ==> data' <= limit && memory[data..data' - 1] == Decode(text, n).value && memory[data' - 1] == 0
    ensures UriSplit.Within(old(memory[..]), memory[..], data, limit)
  {
    hide StringAt, Decode;
    count := PercentDecode(memory, data, src, n, text);
    data', size' := data, size;
    if count.None? {
      return;
    }
    assert count.value < size;
    ghost var decoded := memory[data..data + count.value];
    memory[data + count.value] := 0;
    assert memory[data..data + count.value] == decoded;
    data', size' := data + count.value + 1, size - (count.value + 1);
  }

  // ------------------------------------------------------------------ the fill pass

  /** Where the strings of a raw URI are. */
  datatype RawPointers = RawPointers(userinfo: Option<nat>, host: Option<nat>, port: Option<nat>, path: nat, fragment: Option<nat>)

  ghost predicate Below(memory: seq<byte>, at: nat, text: Text, base: nat) {
    StringAt(memory, at, text) && at + |text| < base
  }

  ghost predicate OptionBelow(memory: seq<byte>, at: Option<nat>, text: Option<Text>, base: nat) {
    (at.Some? <==> text.Some?) && (text.Some? ==> Below(memory, at.value, text.value, base))
  }

  ghost predicate RawBelow(memory: seq<byte>, p: RawPointers, u: Raw, base: nat) {
    && OptionBelow(memory, p.userinfo, u.userinfo, base) && OptionBelow(memory, p.host, u.host, base)
    && OptionBelow(memory, p.port, u.port, base) && Below(memory, p.path, u.path, base)
    && OptionBelow(memory, p.fragment, u.fragment, base)
  }

  lemma BelowKept(before: seq<byte>, after: seq<byte>, at: nat, text: Text, base: nat, limit: nat)
    requires Below(before, at, text, base) && UriSplit.Within(before, after, base, limit)
    ensures Below(after, at, text, base)
  {
    StringKept(before, after, at, text);
  }

  lemma RawKept(before: seq<byte>, after: seq<byte>, p: RawPointers, u: Raw, base: nat, limit: nat)
    requires RawBelow(before, p, u, base) && UriSplit.Within(before, after, base, limit)
    ensures RawBelow(after, p, u, base)
  {
    hide Below, UriSplit.Within;
    BelowKept(before, after, p.path, u.path, base, limit);
    if p.userinfo.Some? {
      BelowKept(before, after, p.userinfo.value, u.userinfo.value, base, limit);
    }
    if p.host.Some? {
      BelowKept(before, after, p.host.value, u.host.value, base, limit);
    }
    if p.port.Some? {
      BelowKept(before, after, p.port.value, u.port.value, base, limit);
    }
    if p.fragment.Some? {
      BelowKept(before, after, p.fragment.value, u.fragment.value, base, limit);
    }
  }

  /** An absent string is the empty string constant. */
  ghost predicate TextAt(memory: seq<byte>, at: Option<nat>, text: Text, lo: nat, hi: nat) {
    if at.Some? then lo <= at.value && at.value + |text| < hi && StringAt(memory, at.value, text) else text == []
  }

  lemma TextKept(before: seq<byte>, after: seq<byte>, at: Option<nat>, text: Text, lo: nat, hi: nat, hi': nat, limit: nat)
    requires TextAt(before, at, text, lo, hi) && hi <= hi' && UriSplit.Within(before, after, hi, limit)
    ensures TextAt(after, at, text, lo, hi')
  {
    if at.Some? {
      StringKept(before, after, at.value, text);
    }
  }

  datatype AuthorityPointers = AuthorityPointers(username: Option<nat>, password: Option<nat>, host: Option<nat>, port: nat)

  ghost predicate AuthorityIn(memory: seq<byte>, p: AuthorityPointers, a: AuthorityValue, lo: nat, hi: nat) {
    && TextAt(memory, p.username, a.username, lo, hi) && TextAt(memory, p.password, a.password, lo, hi)
    && TextAt(memory, p.host, a.host, lo, hi) && p.port == a.port
  }

  /** What the strings of the authority take. */
  function AuthorityEnd(u: Raw, data: nat): nat {
    data + (if u.userinfo.Some? then |u.userinfo.value| + 1 else 0) + (if u.host.Some? then |u.host.value| + 1 else 0)
  }

  /** The user information, cut at its first colon. */
  method FillUser(memory: array<byte>, src: nat, data: nat, size: nat, ghost limit: nat, ghost text: Text, ghost base: nat)
    returns (username: nat, password: Option<nat>, data': nat, size': nat)
    requires Below(memory[..], src, text, base) && base <= data
    requires limit <= memory.Length && size == Room(limit, data) && data + |text| < limit
    modifies memory
    ensures data' == data + |text| + 1 && size' == Room(limit, data') && UriSplit.Within(old(memory[..]), memory[..], data, data')
    ensures var cut := CutAt(text, First(text, COLON));
            && TextAt(memory[..], Some(username), cut.before, data, data')
            && TextAt(memory[..], password, if cut.after.Some? then cut.after.value else [], data, data')
  {
    hide StringAt, First;
    data', size' := PutString(memory, src, data, size, limit, text);
    username := data;
    var colon := FindFirst(memory, data, COLON, text);
    password := Terminate(memory, data, colon, text, First(text, COLON));
  }

  /** The strings of the authority; fails exactly when the port is no number. */
  method FillAuthority(
    memory: array<byte>, p: RawPointers, port: Option<Option<nat>>, data: nat, size: nat, ghost limit: nat, ghost u: Raw, ghost base: nat)
    returns (r: Option<AuthorityPointers>, data': nat, size': nat)
    requires RawBelow(memory[..], p, u, base) && base <= data && (port.Some? <==> u.port.Some?)
    requires limit <= memory.Length && size == Room(limit, data) && AuthorityEnd(u, data) < limit
    modifies memory
    ensures data' == AuthorityEnd(u, data) && size' == Room(limit, data') && UriSplit.Within(old(memory[..]), memory[..], data, data')
    ensures r.None? <==> port == Some(None)
    ensures r.Some? ==> AuthorityIn(memory[..], r.value, AuthorityOf(u, if port.Some? then port.value.value else 0), data, data')
  {
    hide StringAt, First, UriSplit.Within, CutAt;
    var username: Option<nat>, password: Option<nat>, host: Option<nat> := None, None, None;
    data', size' := data, size;
    ghost var before := memory[..];
    NoChange(before, data);
    ghost var a := AuthorityOf(u, 0);
    if p.userinfo.Some? {
      var name;
      name, password, data', size' := FillUser(memory, p.userinfo.value, data', size', limit, u.userinfo.value, base);
      username := Some(name);
    }
    ghost var middle, start := memory[..], data';
    RawKeptAbove(before, middle, p, u, base, data, data');
    if p.host.Some? {
      host := Some(data');
      data', size' := PutString(memory, p.host.value, data', size', limit, u.host.value);
    } else {
      NoChange(middle, data');
    }
    TextKept(middle, memory[..], username, a.username, data, start, data', data');
    TextKept(middle, memory[..], password, a.password, data, start, data', data');
    Widened(before, middle, memory[..], data, start, data');
    if port == Some(None) {
      return None, data', size';
    }
    r := Some(AuthorityPointers(username, password, host, if port.Some? then port.value.value else 0));
  }

  lemma NoChange(memory: seq<byte>, at: nat)
    ensures UriSplit.Within(memory, memory, at, at)
  {
  }

  lemma Widened(m0: seq<byte>, m1: seq<byte>, m2: seq<byte>, a: nat, b: nat, c: nat)
    requires a <= b <= c && UriSplit.Within(m0, m1, a, b) && UriSplit.Within(m1, m2, b, c)
    ensures UriSplit.Within(m0, m2, a, c)
  {
  }

  lemma RawKeptAbove(before: seq<byte>, after: seq<byte>, p: RawPointers, u: Raw, base: nat, lo: nat, hi: nat)
    requires RawBelow(before, p, u, base) && UriSplit.Within(before, after, lo, hi) && base <= lo
    ensures RawBelow(after, p, u, base)
  {
    assert UriSplit.Within(before, after, base, if hi < base then base else hi);
    RawKept(before, after, p, u, base, if hi < base then base else hi);
  }

  lemma SuffixAt(buffer: seq<byte>, at: nat, text: Text, k: nat)
    requires StringAt(buffer, at, text) && k <= |text|
    ensures StringAt(buffer, at + k, text[k..])
  {
    PartOf(buffer, at, text, k, |text|);
    assert text[k..|text|] == text[k..];
  }

  lemma {:induction false} DecodeWhole(text: Text, n: nat)
    requires n >= |text|
    ensures Decode(text, n) == Decode(text, |text|)
    decreases |text|
  {
    if text != [] {
      if text[0] != PERCENT {
        DecodeWhole(text[1..], n - 1);
      } else if |text| >= 3 {
        DecodeWhole(text[3..], n - 3);
      }
    }
  }

  /** A decoded string. */
  method FillDecoded(memory: array<byte>, src: nat, n: nat, data: nat, size: nat, ghost limit: nat, ghost text: Text)
    returns (count: Option<nat>, data': nat, size': nat)
    requires StringAt(memory[..], src, text) && src + |text| < data && n <= |text|
    requires limit <= memory.Length && size == Room(limit, data) && data + n < limit
    modifies memory
    ensures UriSplit.Within(old(memory[..]), memory[..], data, limit)
    ensures count.Some? <==> Decode(text, n).Some?
    ensures count.Some? ==> data < data' <= data + n + 1 && size' == Room(limit, data') && memory[data' - 1] == 0
    ensures count.Some? ==> TextAt(memory[..], Some(data), CStr(Decode(text, n).value), data, data')
  {
    hide StringAt, First, Decode, CStr;
    count, data', size' := DecodeString(memory, src, n, data, size, limit, text);
    if count.Some? {
      DecodedText(memory[..], data, Decode(text, n).value);
    }
  }

  /** The name of the filesystem, without the slash at its end. */
  method FillFsname(memory: array<byte>, src: nat, data: nat, size: nat, ghost limit: nat, ghost text: Text)
    returns (ok: bool, data': nat, size': nat)
    requires StringAt(memory[..], src, text) && src + |text| < data && |text| <= SIZE_MAX
    requires limit <= memory.Length && size == Room(limit, data) && data + |text| < limit && memory[data - 1] == 0
    modifies memory
    ensures UriSplit.Within(old(memory[..]), memory[..], data, limit)
    ensures ok <==> Decode(text, |text|).Some?
    ensures ok ==> data < data' <= data + |text| + 1 && size' == Room(limit, data')
    ensures ok ==> TextAt(memory[..], Some(data), CStr(Stripped(Decode(text, |text|).value)), data, data')
  {
    hide StringAt, First, Decode, CStr, Stripped;
    var count;
    DecodeWhole(text, SIZE_MAX);
    count, data', size' := DecodeString(memory, src, SIZE_MAX, data, size, limit, text);
    if count.None? {
      return false, data', size';
    }
    ghost var before := memory[..];
    if memory[data + count.value - 1] == SLASH {
      memory[data + count.value - 1] := 0;
    }
    StripAt(before, memory[..], data, Decode(text, |text|).value);
    return true, data', size';
  }

  /** The backend and the name of the filesystem. */
  method FillPath(memory: array<byte>, src: nat, colon: nat, data: nat, size: nat, ghost limit: nat, ghost path: Text, ghost base: nat)
    returns (r: Option<(nat, nat)>, data': nat, size': nat)
    requires Below(memory[..], src, path, base) && base <= data && colon == First(path, COLON) < |path| <= SIZE_MAX
    requires limit <= memory.Length && size == Room(limit, data) && data + |path| < limit
    modifies memory
    ensures UriSplit.Within(old(memory[..]), memory[..], data, limit)
    ensures var backend, fsname := Decode(path[BackendStart(path)..], colon - BackendStart(path)), Decode(path[colon + 1..], |path| - colon - 1);
            && (r.Some? <==> backend.Some? && fsname.Some?)
            && (r.Some? ==>
                  && data <= data' <= data + |path| + 1 && size' == Room(limit, data')
                  && TextAt(memory[..], Some(r.value.0), CStr(backend.value), data, data')
                  && TextAt(memory[..], Some(r.value.1), CStr(Stripped(fsname.value)), data, data'))
  {
    hide StringAt, First, Decode, CStr, Stripped;
    CharAt(memory[..], src, path, 0);
    var start := if memory[src] == SLASH then 1 else 0;
    ghost var before := memory[..];
    SuffixAt(before, src, path, start);
    SuffixAt(before, src, path, colon + 1);
    var count, ok;
    count, data', size' := FillDecoded(memory, src + start, colon - start, data, size, limit, path[start..]);
    if count.None? {
      return None, data', size';
    }
    ghost var m1, backend := memory[..], CStr(Decode(path[start..], colon - start).value);
    var name := data';
    StringKept(before, m1, src + colon + 1, path[colon + 1..]);
    ok, data', size' := FillFsname(memory, src + colon + 1, name, size', limit, path[colon + 1..]);
    if !ok {
      return None, data', size';
    }
    TextKept(m1, memory[..], Some(data), backend, data, name, data', limit);
    return Some((data, name)), data', size';
  }

  lemma DecodedText(buffer: seq<byte>, at: nat, bytes: Text)
    requires at + |bytes| < |buffer| && buffer[at..at + |bytes|] == bytes && buffer[at + |bytes|] == 0
    ensures TextAt(buffer, Some(at), CStr(bytes), at, at + |bytes| + 1)
  {
    hide StringAt;
    CStrAt(buffer, at, bytes);
  }

  lemma StripAt(before: seq<byte>, after: seq<byte>, at: nat, bytes: Text)
    requires 0 < at && at + |bytes| < |before| && before[at..at + |bytes|] == bytes && before[at + |bytes|] == 0 && before[at - 1] == 0
    requires var k := at + |bytes| - 1;
             after == if before[k] == SLASH then before[k := 0] else before
    ensures TextAt(after, Some(at), CStr(Stripped(bytes)), at, at + |bytes| + 1)
  {
    hide StringAt, CStr;
    var stripped := Stripped(bytes);
    if bytes != [] {
      assert before[at..at + |bytes|][|bytes| - 1] == before[at + |bytes| - 1];
    }
    assert after[at..at + |stripped|] == stripped;
    DecodedText(after, at, stripped);
  }

  // ------------------------------------------------------------------ the fragment

  /** Whether a fragment is an identifier, by its brackets. */
  method FragmentIsId(memory: array<byte>, src: nat, length: nat, ghost f: Text) returns (r: bool)
    requires StringAt(memory[..], src, f) && length == |f|
    ensures r == IsId(f)
  {
    hide StringAt;
    CharAt(memory[..], src, f, 0);
    if length > 0 {
      CharAt(memory[..], src, f, length - 1);
    }
    r := memory[src] == OPEN && memory[src + length - 1] == CLOSE;
  }

  /** memchr. */
  method MemChr(memory: array<byte>, from: nat, n: nat, c: byte, ghost text: Text) returns (k: nat)
    requires from + n <= memory.Length && memory[from..from + n] == text
    ensures k == First(text, c)
  {
    hide First;
    k := 0;
    while k < n && memory[from + k] != c
      invariant k <= n && forall j | 0 <= j < k :: text[j] != c
    {
      assert text[k] == memory[from + k];
      k := k + 1;
    }
    assert k < n ==> text[k] == memory[from + k];
    FirstIs(text, k, c);
  }

  method FragmentIsFid(memory: array<byte>, src: nat, length: nat, ghost f: Text) returns (r: bool)
    requires StringAt(memory[..], src, f) && length == |f| && IsId(f)
    ensures r == IsFid(f)
  {
    hide StringAt, First;
    ghost var inner := f[1..|f| - 1];
    PartOf(memory[..], src, f, 1, |f| - 1);
    var k := MemChr(memory, src + 1, length - 2, COLON, inner);
    if k == length - 2 {
      return false;
    }
    PartOf(memory[..], src, f, k + 2, |f| - 1);
    assert inner[k + 1..] == f[k + 2..|f| - 1];
    var m := MemChr(memory, src + 2 + k, length - 2 - k - 1, COLON, inner[k + 1..]);
    return m < length - 2 - k - 1;
  }

  datatype TargetPointers = BareTarget | IdTarget(id: nat, data: nat, size: nat) | PathTarget(path: nat)

  /** The target lies in `lo..hi`. */
  ghost predicate TargetIn(memory: seq<byte>, p: TargetPointers, t: Target, lo: nat, hi: nat) {
    match t
    case Bare => p.BareTarget?
    case Entry(id) =>
      && p.IdTarget? && lo <= p.id && p.id % ALIGNMENT == 0 && p.id + ID_STRUCT <= p.data && p.data + p.size <= hi <= |memory|
      && memory[p.data..p.data + p.size] == id
    case Path(path) => p.PathTarget? && TextAt(memory, Some(p.path), path, lo, hi)
  }

  method PutId(memory: array<byte>, data: nat, bytes: Text)
    requires data + |bytes| <= memory.Length
    modifies memory
    ensures memory[data..data + |bytes|] == bytes && UriSplit.Within(old(memory[..]), memory[..], data, data + |bytes|)
  {
    for k := 0 to |bytes|
      invariant memory[data..data + k] == bytes[..k] && UriSplit.Within(old(memory[..]), memory[..], data, data + k)
    {
      memory[data + k] := bytes[k];
    }
    assert bytes[..|bytes|] == bytes;
  }

  /** What the fragment needs when the strings before it end at `data`. */
  function TargetEnd(f: Text, data: nat): nat {
    if IsId(f) then Align(data) + ID_STRUCT + (if IsFid(f) then LUSTRE_ID_SIZE else |f| - 1) else data + |f| + 1
  }

  method FillId(memory: array<byte>, src: nat, length: nat, library: Library, data: nat, size: nat, ghost limit: nat, ghost f: Text, ghost base: nat)
    returns (r: Option<TargetPointers>)
    requires Below(memory[..], src, f, base) && base <= data && length == |f| && IsId(f)
    requires forall x | library.fid(x).Some? :: |library.fid(x).value| == LUSTRE_ID_SIZE
    requires limit <= memory.Length && size == Room(limit, data) && TargetEnd(f, data) <= limit
    modifies memory
    ensures UriSplit.Within(old(memory[..]), memory[..], data, limit)
    ensures var id := if IsFid(f) then library.fid(f) else Decode(f[1..], |f| - 2);
            (r.Some? <==> id.Some?) && (r.Some? ==> TargetIn(memory[..], r.value, Entry(id.value), data, limit))
  {
    hide StringAt, First, Decode, IsFid;
    var at, start, left := AlignedAlloc(ID_STRUCT, data, size, limit);
    assert at.Some?;
    var isFid := FragmentIsFid(memory, src, length, f);
    if isFid {
      PartOf(memory[..], src, f, 0, |f|);
      assert f[0..|f|] == f;
      var id := library.fid(memory[src..src + length]);
      if id.None? {
        return None;
      }
      PutId(memory, start, id.value);
      return Some(IdTarget(at.value, start, LUSTRE_ID_SIZE));
    }
    SuffixAt(memory[..], src, f, 1);
    var count := PercentDecode(memory, start, src + 1, length - 2, f[1..]);
    if count.None? {
      return None;
    }
    assert count.value <= left;
    return Some(IdTarget(at.value, start, count.value));
  }

  method FillPathTarget(memory: array<byte>, src: nat, length: nat, data: nat, size: nat, ghost limit: nat, ghost f: Text, ghost base: nat)
    returns (r: Option<TargetPointers>)
    requires Below(memory[..], src, f, base) && base <= data && length == |f|
    requires limit <= memory.Length && size == Room(limit, data) && data + |f| + 1 <= limit
    modifies memory
    ensures UriSplit.Within(old(memory[..]), memory[..], data, limit)
    ensures r.Some? <==> Decode(f, |f|).Some?
    ensures r.Some? ==> TargetIn(memory[..], r.value, Path(CStr(Decode(f, |f|).value)), data, limit)
  {
    hide StringAt, First, Decode, CStr;
    var count, data', size' := DecodeString(memory, src, length, data, size, limit, f);
    if count.None? {
      return None;
    }
    DecodedText(memory[..], data, Decode(f, |f|).value);
    return Some(PathTarget(data));
  }

  // ------------------------------------------------------------------ the whole

  datatype UriPointers = UriPointers(authority: Option<AuthorityPointers>, backend: nat, fsname: nat, target: TargetPointers)

  /** The block from `lo` to `hi` holds the URI. */
  ghost predicate UriIn(memory: seq<byte>, p: UriPointers, v: UriValue, lo: nat, hi: nat) {
    && (p.authority.Some? <==> v.authority.Some?)
    && (v.authority.Some? ==> AuthorityIn(memory, p.authority.value, v.authority.value, lo + AUTHORITY_SIZE, hi))
    && TextAt(memory, Some(p.backend), v.backend, lo, hi) && TextAt(memory, Some(p.fsname), v.fsname, lo, hi)
    && TargetIn(memory, p.target, v.target, lo, hi)
  }

  lemma AuthorityInKept(before: seq<byte>, after: seq<byte>, p: AuthorityPointers, a: AuthorityValue, lo: nat, hi: nat, hi': nat)
    requires AuthorityIn(before, p, a, lo, hi) && hi <= hi' && UriSplit.Within(before, after, hi, hi')
    ensures AuthorityIn(after, p, a, lo, hi')
  {
    TextKept(before, after, p.username, a.username, lo, hi, hi', hi');
    TextKept(before, after, p.password, a.password, lo, hi, hi', hi');
    TextKept(before, after, p.host, a.host, lo, hi, hi', hi');
  }

  /** The size pass leaves room for every string. */
  lemma SizeSuffices(u: Raw, base: nat, data: nat)
    requires base % ALIGNMENT == 0 && data <= base + AuthoritySize(u) + |u.path| + 1
    ensures u.fragment.Some? ==> TargetEnd(u.fragment.value, data) <= base + UriSize(u)
    ensures base + AuthoritySize(u) + |u.path| + 1 <= base + UriSize(u)
  {
    var size := AuthoritySize(u) + |u.path| + 1;
    AlignMonotone(data, base + size);
    AlignShift(base, size);
  }

  method AuthorityDataSize(memory: array<byte>, p: RawPointers, ghost u: Raw, ghost base: nat) returns (size: nat)
    requires RawBelow(memory[..], p, u, base)
    ensures size == AuthoritySize(u)
  {
    hide StringAt, First;
    size := 0;
    if p.userinfo.Some? || p.host.Some? || p.port.Some? {
      size := size + AUTHORITY_SIZE;
    }
    if p.userinfo.Some? {
      var length := StrLen(memory, p.userinfo.value, u.userinfo.value);
      var colon := FindFirst(memory, p.userinfo.value, COLON, u.userinfo.value);
      size := size + length + if colon.Some? then 2 else 1;
    }
    if p.host.Some? {
      var length := StrLen(memory, p.host.value, u.host.value);
      size := size + length + 1;
    }
  }

  method UriDataSize(memory: array<byte>, p: RawPointers, ghost u: Raw, ghost base: nat) returns (size: nat)
    requires RawBelow(memory[..], p, u, base)
    ensures size == UriSize(u)
  {
    hide StringAt, AuthoritySize, IsId, IsFid;
    size := AuthorityDataSize(memory, p, u, base);
    var length := StrLen(memory, p.path, u.path);
    size := size + length + 1;
    if p.fragment.Some? {
      length := StrLen(memory, p.fragment.value, u.fragment.value);
      var isId := FragmentIsId(memory, p.fragment.value, length, u.fragment.value);
      if isId {
        size := Align(size);
        size := size + ID_STRUCT;
        var isFid := FragmentIsFid(memory, p.fragment.value, length, u.fragment.value);
        IdIsLong(u.fragment.value);
        size := size + if isFid then LUSTRE_ID_SIZE else length + 1 - 2;
      } else {
        size := size + length + 1;
      }
    }
  }

  lemma IdIsLong(f: Text)
    requires IsId(f)
    ensures |f| >= 2
  {
  }

  /** The authority, with its structure in front. */
  method FillHead(memory: array<byte>, p: RawPointers, library: Library, data: nat, size: nat, ghost limit: nat, ghost u: Raw)
    returns (ok: bool, r: Option<AuthorityPointers>, data': nat, size': nat)
    requires RawBelow(memory[..], p, u, data) && data % ALIGNMENT == 0
    requires limit <= memory.Length && size == Room(limit, data) && data + AuthoritySize(u) < limit
    modifies memory
    ensures UriSplit.Within(old(memory[..]), memory[..], data, data') && data <= data' <= data + AuthoritySize(u)
    ensures ok <==> !(HasAuthority(u) && PortOf(u, library).None?)
    ensures ok ==> size' == Room(limit, data') && (r.Some? <==> HasAuthority(u))
    ensures ok && r.Some? ==> data + AUTHORITY_SIZE <= data'
    ensures ok && r.Some? ==> AuthorityIn(memory[..], r.value, AuthorityOf(u, PortOf(u, library).value), data + AUTHORITY_SIZE, data')
  {
    hide StringAt, First, AuthorityIn, AuthorityOf;
    if !(p.userinfo.Some? || p.host.Some? || p.port.Some?) {
      return true, None, data, size;
    }
    var at;
    at, data', size' := AlignedAlloc(AUTHORITY_SIZE, data, size, limit);
    assert at.Some?;
    var port: Option<Option<nat>> := None;
    if p.port.Some? {
      var length := StrLen(memory, p.port.value, u.port.value);
      PartOf(memory[..], p.port.value, u.port.value, 0, length);
      assert u.port.value[0..length] == u.port.value;
      port := Some(library.port(memory[p.port.value..p.port.value + length]));
    }
    r, data', size' := FillAuthority(memory, p, port, data', size', limit, u, data);
    return r.Some?, r, data', size';
  }

  method FillTarget(memory: array<byte>, src: Option<nat>, library: Library, data: nat, size: nat, ghost limit: nat, ghost u: Raw, ghost base: nat)
    returns (r: Option<TargetPointers>)
    requires OptionBelow(memory[..], src, u.fragment, base) && base <= data
    requires forall x | library.fid(x).Some? :: |library.fid(x).value| == LUSTRE_ID_SIZE
    requires limit <= memory.Length && size == Room(limit, data) && (u.fragment.Some? ==> TargetEnd(u.fragment.value, data) <= limit)
    modifies memory
    ensures UriSplit.Within(old(memory[..]), memory[..], data, limit)
    ensures r.Some? <==> TargetOf(u, library).Some?
    ensures r.Some? ==> TargetIn(memory[..], r.value, TargetOf(u, library).value, data, limit)
  {
    hide StringAt, First, Decode, IsId, IsFid, CStr;
    if src.None? {
      return Some(BareTarget);
    }
    ghost var f := u.fragment.value;
    var length := StrLen(memory, src.value, f);
    var isId := FragmentIsId(memory, src.value, length, f);
    if isId {
      r := FillId(memory, src.value, length, library, data, size, limit, f, base);
    } else {
      r := FillPathTarget(memory, src.value, length, data, size, limit, f, base);
    }
  }

  /** Fails exactly when the URI has no meaning. Otherwise the block of the computed size holds
      that meaning, and nothing outside the block was written. */
  method UriFromRawUri(memory: array<byte>, scheme: Text, p: RawPointers, library: Library, base: nat, ghost u: Raw)
    returns (r: Option<UriPointers>)
    requires RawBelow(memory[..], p, u, base) && base % ALIGNMENT == 0 && scheme == u.scheme && |u.path| <= SIZE_MAX
    requires forall x | library.fid(x).Some? :: |library.fid(x).value| == LUSTRE_ID_SIZE
    requires base + UriSize(u) <= memory.Length // what malloc returned
    modifies memory
    ensures UriSplit.Within(old(memory[..]), memory[..], base, base + UriSize(u))
    ensures r.Some? <==> Interpret(u, library).Some?
    ensures r.Some? ==> UriIn(memory[..], r.value, Interpret(u, library).value, base, base + UriSize(u))
  {
    hide StringAt, First, Decode, CStr, Stripped, AuthoritySize, AuthorityIn, TargetIn, TargetOf, UriSize, AuthorityOf, RawBelow, TargetEnd;
    if scheme != SCHEME {
      return None;
    }
    PathBelow(memory[..], p, u, base);
    var colon := FindFirst(memory, p.path, COLON, u.path);
    if colon.None? {
      return None;
    }
    var size := UriDataSize(memory, p, u, base);
    ghost var limit := base + size;
    ghost var m0 := memory[..];
    SizeSuffices(u, base, base);
    var ok, authority, data, left := FillHead(memory, p, library, base, size, limit, u);
    ghost var m1, d1 := memory[..], data;
    if !ok {
      return None;
    }
    RawKeptAbove(m0, m1, p, u, base, base, data);
    PathBelow(memory[..], p, u, base);
    var path;
    path, data, left := FillPath(memory, p.path, colon.value - p.path, data, left, limit, u.path, base);
    if path.None? {
      return None;
    }
    ghost var m2, d2 := memory[..], data;
    RawKeptAbove(m1, m2, p, u, base, d1, limit);
    PathBelow(memory[..], p, u, base);
    SizeSuffices(u, base, data);
    var target := FillTarget(memory, p.fragment, library, data, left, limit, u, base);
    if target.None? {
      return None;
    }
    if authority.Some? {
      AuthorityInKeptOn(m1, m2, memory[..], authority.value, AuthorityOf(u, PortOf(u, library).value), base + AUTHORITY_SIZE, d1, d2, limit);
    }
    ghost var v := Interpret(u, library).value;
    TextKeptWithin(m2, memory[..], Some(path.value.0), v.backend, d1, d2, limit, base);
    TextKeptWithin(m2, memory[..], Some(path.value.1), v.fsname, d1, d2, limit, base);
    TargetWider(memory[..], target.value, v.target, d2, limit, base);
    return Some(UriPointers(authority, path.value.0, path.value.1, target.value));
  }

  lemma PathBelow(memory: seq<byte>, p: RawPointers, u: Raw, base: nat)
    requires RawBelow(memory, p, u, base)
    ensures Below(memory, p.path, u.path, base) && OptionBelow(memory, p.fragment, u.fragment, base)
  {
  }

  lemma AuthorityInKeptOn(
    m1: seq<byte>, m2: seq<byte>, m3: seq<byte>, p: AuthorityPointers, a: AuthorityValue, lo: nat, d1: nat, d2: nat, limit: nat)
    requires AuthorityIn(m1, p, a, lo, d1) && d1 <= d2 <= limit
    requires UriSplit.Within(m1, m2, d1, limit) && UriSplit.Within(m2, m3, d2, limit)
    ensures AuthorityIn(m3, p, a, lo, limit)
  {
    hide AuthorityIn;
    assert UriSplit.Within(m1, m3, d1, limit);
    AuthorityInKept(m1, m3, p, a, lo, d1, limit);
  }

  lemma TextKeptWithin(before: seq<byte>, after: seq<byte>, at: Option<nat>, text: Text, lo: nat, hi: nat, limit: nat, base: nat)
    requires TextAt(before, at, text, lo, hi) && base <= lo && hi <= limit && UriSplit.Within(before, after, hi, limit)
    ensures TextAt(after, at, text, base, limit)
  {
    hide StringAt;
    TextKept(before, after, at, text, lo, hi, limit, limit);
  }

  lemma TargetWider(memory: seq<byte>, p: TargetPointers, t: Target, lo: nat, hi: nat, base: nat)
    requires TargetIn(memory, p, t, lo, hi) && base <= lo
    ensures TargetIn(memory, p, t, base, hi)
  {
    hide StringAt;
  }
}
