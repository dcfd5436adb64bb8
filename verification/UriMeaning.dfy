/** Writing a URI for what it is to mean: interpreting it gives the meaning back. */
module UriMeaning {
  import opened Wrappers
  import opened Percent
  import opened Uri
  import opened UriBuild

  /** The freedom there is in writing a URI: which bytes stand for themselves, a slash before the
      backend and one after the name of the filesystem, a colon before an empty password, and the
      text of the port. */
  datatype Style = Style(plain: byte -> bool, before: bool, after: bool, colon: bool, port: Option<Text>)

  /** The bytes that separate the components are written encoded where they could be mistaken. */
  ghost predicate Careful(style: Style) {
    && !style.plain(PERCENT) && !style.plain(COLON) && !style.plain(OPEN)
    && (!style.before ==> !style.plain(SLASH))
  }

  /** What a URI can name. One slash at the end of the filesystem's name is not part of it. */
  predicate Nameable(v: UriValue, style: Style) {
    && 0 !in v.backend && 0 !in v.fsname && (v.fsname != [] && v.fsname[|v.fsname| - 1] == SLASH ==> style.after)
    && (v.authority.Some? ==> COLON !in v.authority.value.username)
    && (v.target.Path? ==> 0 !in v.target.path)
  }

  ghost predicate PortFits(v: UriValue, style: Style, library: Library) {
    v.authority.Some? ==>
      if style.port.None? then v.authority.value.port == 0 else library.port(style.port.value) == Some(v.authority.value.port)
  }

  function WriteUser(a: AuthorityValue, style: Style): Text {
    a.username + if a.password != [] || style.colon then [COLON] + a.password else []
  }

  function WritePath(v: UriValue, style: Style): Text {
    (if style.before then [SLASH] else []) + Encode(v.backend, style.plain) + [COLON]
    + Encode(v.fsname, style.plain) + (if style.after then [SLASH] else [])
  }

  function WriteTarget(target: Target, style: Style): Option<Text> {
    match target
    case Bare => None
    case Path(path) => Some(Encode(path, style.plain))
    case Entry(id) => Some([OPEN] + Encode(id, style.plain) + [CLOSE])
  }

  function Write(v: UriValue, style: Style): Raw {
    Raw(
      SCHEME,
      if v.authority.Some? then Some(WriteUser(v.authority.value, style)) else None,
      if v.authority.Some? then Some(v.authority.value.host) else None,
      if v.authority.Some? then style.port else None,
      WritePath(v, style),
      WriteTarget(v.target, style))
  }

  // ------------------------------------------------------------------ encoded text

  function EncodeOne(b: byte, plain: byte -> bool): Text {
    if plain(b) then [b] else [PERCENT, Digit(b as int / 16), Digit(b as int % 16)]
  }

  lemma EncodeFirst(bytes: Text, plain: byte -> bool)
    ensures bytes == [] ==> Encode(bytes, plain) == []
    ensures bytes != [] ==> Encode(bytes, plain) == EncodeOne(bytes[0], plain) + Encode(bytes[1..], plain)
    ensures bytes != [] ==> |EncodeOne(bytes[0], plain)| == if plain(bytes[0]) then 1 else 3
  {
  }

  lemma DecodeFirst(b: byte, plain: byte -> bool, rest: Text, n: nat)
    requires !plain(PERCENT) && n >= |EncodeOne(b, plain)|
    ensures Decode(EncodeOne(b, plain) + rest, n) == Cons(b, Decode(rest, n - |EncodeOne(b, plain)|))
  {
    hide Decode, Digit;
    DecodeOfOne(b, rest, n);
  }

  /** What is encoded is read, then what follows it. */
  lemma {:induction false} DecodeThen(bytes: Text, plain: byte -> bool, tail: Text, n: nat)
    requires !plain(PERCENT) && n >= |Encode(bytes, plain)|
    ensures var rest := Decode(tail, n - |Encode(bytes, plain)|);
            Decode(Encode(bytes, plain) + tail, n) == if rest.Some? then Some(bytes + rest.value) else None
  {
    hide Decode, Encode, EncodeOne;
    var rest := Decode(tail, n - |Encode(bytes, plain)|);
    EncodeFirst(bytes, plain);
    if bytes == [] {
      assert Encode(bytes, plain) + tail == tail;
      assert rest.Some? ==> [] + rest.value == rest.value;
    } else {
      var first, more := EncodeOne(bytes[0], plain), Encode(bytes[1..], plain);
      assert Encode(bytes, plain) + tail == first + (more + tail);
      DecodeFirst(bytes[0], plain, more + tail, n);
      DecodeThen(bytes[1..], plain, tail, n - |first|);
      assert rest.Some? ==> bytes + rest.value == [bytes[0]] + (bytes[1..] + rest.value);
    }
  }

  /** Reading stops where the encoded bytes end, whatever comes after. */
  lemma DecodeOnly(bytes: Text, plain: byte -> bool, tail: Text)
    requires !plain(PERCENT)
    ensures Decode(Encode(bytes, plain) + tail, |Encode(bytes, plain)|) == Some(bytes)
  {
    hide Encode;
    DecodeThen(bytes, plain, tail, |Encode(bytes, plain)|);
    assert bytes + [] == bytes;
  }

  /** A byte that is neither a digit nor `%`, and does not stand for itself, is not written. */
  lemma {:induction false} NotWritten(bytes: Text, plain: byte -> bool, c: byte)
    requires !plain(c) && c != PERCENT && Hex(c).None?
    ensures c !in Encode(bytes, plain)
  {
    hide Hex;
    if bytes != [] {
      NotWritten(bytes[1..], plain, c);
      var b := bytes[0];
      assert Digit(b as int / 16) != c && Digit(b as int % 16) != c;
    }
  }

  lemma DecodeSlash(after: bool)
    ensures var tail: Text := if after then [SLASH] else [];
            Decode(tail, |tail|) == Some(tail)
  {
    assert [SLASH][1..] == [] && [SLASH] + [] == [SLASH];
    assert Decode([SLASH][1..], 0) == Some([]);
  }

  /** The first of some bytes is not behind any of them. */
  lemma {:induction false} FirstBefore(s: Text, i: nat, c: byte)
    requires i < |s| && s[i] == c
    ensures First(s, c) <= i
  {
    if s[0] != c {
      FirstBefore(s[1..], i - 1, c);
    }
  }

  lemma WholeCStr(bytes: Text)
    requires 0 !in bytes
    ensures CStr(bytes) == bytes
  {
    FirstIs(bytes, |bytes|, 0);
    assert bytes[..|bytes|] == bytes;
  }

  // ------------------------------------------------------------------ the components

  lemma UserRead(a: AuthorityValue, style: Style)
    requires COLON !in a.username
    ensures var text := WriteUser(a, style);
            var cut := CutAt(text, First(text, COLON));
            cut.before == a.username && (if cut.after.Some? then cut.after.value else []) == a.password
  {
    var text := WriteUser(a, style);
    if a.password != [] || style.colon {
      assert text == a.username + ([COLON] + a.password);
      assert text[..|a.username|] == a.username && text[|a.username|] == COLON;
      FirstIs(text, |a.username|, COLON);
      assert text[|a.username| + 1..] == a.password;
    } else {
      assert text == a.username;
      FirstIs(text, |text|, COLON);
    }
  }

  /** The path, cut at its first colon. */
  lemma PathCut(v: UriValue, style: Style)
    requires Careful(style)
    ensures var path, name := WritePath(v, style), Encode(v.fsname, style.plain);
            var colon, start := First(path, COLON), if style.before then 1 else 0;
            var tail: Text := if style.after then [SLASH] else [];
            && colon == start + |Encode(v.backend, style.plain)| < |path|
            && path[start..] == Encode(v.backend, style.plain) + ([COLON] + name + tail)
            && path[colon + 1..] == name + tail
  {
    hide Encode, Hex;
    var path := WritePath(v, style);
    var slash: Text := if style.before then [SLASH] else [];
    var tail: Text := if style.after then [SLASH] else [];
    var backend, name := Encode(v.backend, style.plain), Encode(v.fsname, style.plain);
    HexOfSeparators();
    NotWritten(v.backend, style.plain, COLON);
    var k := |slash| + |backend|;
    assert path == slash + backend + ([COLON] + name + tail);
    assert path[..k] == slash + backend && path[k] == COLON;
    FirstIs(path, k, COLON);
  }

  /** The slash before the backend is known for what it is. */
  lemma PathStart(v: UriValue, style: Style)
    requires Careful(style)
    ensures BackendStart(WritePath(v, style)) == if style.before then 1 else 0
  {
    hide Encode, Hex;
    if !style.before {
      var backend := Encode(v.backend, style.plain);
      HexOfSeparators();
      NotWritten(v.backend, style.plain, SLASH);
      assert backend != [] ==> backend[0] in backend;
      assert WritePath(v, style)[0] == if backend != [] then backend[0] else COLON;
    }
  }

  lemma PathRead(v: UriValue, style: Style)
    requires Careful(style)
    ensures var path := WritePath(v, style);
            var colon := First(path, COLON);
            var start := BackendStart(path);
            && start <= colon < |path|
            && Decode(path[start..], colon - start) == Some(v.backend)
            && Decode(path[colon + 1..], |path| - colon - 1) == Some(v.fsname + if style.after then [SLASH] else [])
  {
    hide Decode, Encode, First, WritePath;
    var name := Encode(v.fsname, style.plain);
    var tail: Text := if style.after then [SLASH] else [];
    PathCut(v, style);
    PathStart(v, style);
    DecodeOnly(v.backend, style.plain, [COLON] + name + tail);
    DecodeThen(v.fsname, style.plain, tail, |name| + |tail|);
    DecodeSlash(style.after);
  }

  lemma HexOfSeparators()
    ensures Hex(COLON).None? && Hex(SLASH).None? && Hex(OPEN).None?
  {
  }

  lemma NameRead(v: UriValue, style: Style)
    requires Nameable(v, style)
    ensures CStr(v.backend) == v.backend && CStr(Stripped(v.fsname + if style.after then [SLASH] else [])) == v.fsname
  {
    WholeCStr(v.backend);
    WholeCStr(v.fsname);
    if style.after {
      assert (v.fsname + [SLASH])[..|v.fsname|] == v.fsname;
    } else {
      assert v.fsname + [] == v.fsname;
    }
  }

  lemma TargetRead(u: Raw, target: Target, style: Style, library: Library)
    requires Careful(style) && (target.Path? ==> 0 !in target.path) && u.fragment == WriteTarget(target, style)
    ensures TargetOf(u, library) == Some(target)
  {
    hide Decode, Encode, Hex, First;
    HexOfSeparators();
    match target
    case Bare =>
    case Path(path) =>
      var f := Encode(path, style.plain);
      NotWritten(path, style.plain, OPEN);
      assert |f| > 0 ==> f[0] in f;
      DecodeOnly(path, style.plain, []);
      assert f + [] == f;
      WholeCStr(path);
    case Entry(id) =>
      var text := Encode(id, style.plain);
      var f := [OPEN] + text + [CLOSE];
      assert f[1..] == text + [CLOSE] && f[1..|f| - 1] == text;
      NotWritten(id, style.plain, COLON);
      FirstIs(text, |text|, COLON);
      DecodeOnly(id, style.plain, [CLOSE]);
  }

  /** However it is written, a URI means what it was written for. */
  lemma InterpretOfWrite(v: UriValue, style: Style, library: Library)
    requires Careful(style) && Nameable(v, style) && PortFits(v, style, library)
    ensures Interpret(Write(v, style), library) == Some(v)
  {
    hide Decode, WritePath, WriteTarget, WriteUser, Stripped, CStr, First, TargetOf, BackendStart;
    var u := Write(v, style);
    PathRead(v, style);
    NameRead(v, style);
    TargetRead(u, v.target, style, library);
    if v.authority.Some? {
      UserRead(v.authority.value, style);
    }
  }

  /** Two colons between the brackets make a Lustre identifier, which a library function reads. */
  lemma FidIsEntry(u: Raw, library: Library, a: Text, b: Text, c: Text)
    requires u.fragment == Some([OPEN] + a + [COLON] + b + [COLON] + c + [CLOSE])
    ensures TargetOf(u, library) == match library.fid(u.fragment.value) case Some(id) => Some(Entry(id)) case None => None
  {
    hide Decode, First;
    var f := u.fragment.value;
    var inner := a + [COLON] + b + [COLON] + c;
    assert f == [OPEN] + inner + [CLOSE] && f[1..|f| - 1] == inner;
    var k := First(inner, COLON);
    FirstBefore(inner, |a|, COLON);
    assert inner[|a| + 1 + |b|] == COLON;
    FirstBefore(inner[k + 1..], |a| + |b| - k, COLON);
  }

  // ------------------------------------------------------------------ what has no meaning

  ghost predicate Readable(text: Text) {
    exists bytes :: Reads(text, bytes)
  }

  /** The limit of what is looked at is like the end of the text. */
  lemma {:induction false} DecodeWithin(text: Text, tail: Text)
    ensures Decode(text + tail, |text|) == Decode(text, |text|)
  {
    var all := text + tail;
    if text != [] {
      if text[0] != PERCENT {
        assert all[1..] == text[1..] + tail;
        DecodeWithin(text[1..], tail);
      } else if |text| >= 3 {
        assert all[3..] == text[3..] + tail && all[1] == text[1] && all[2] == text[2];
        DecodeWithin(text[3..], tail);
      }
    } else {
      assert Decode(text, 0) == Some([]);
    }
  }

  lemma DecodesIff(text: Text, tail: Text)
    ensures Decode(text + tail, |text|).Some? <==> Readable(text)
  {
    DecodeWithin(text, tail);
    if Decode(text, |text|).Some? {
      DecodeReads(text, Decode(text, |text|).value, |text|);
    }
    forall bytes | Reads(text, bytes) ensures Decode(text, |text|).Some? {
      DecodeReads(text, bytes, |text|);
    }
  }

  lemma WholeDecodesIff(text: Text)
    ensures Decode(text, |text|).Some? <==> Readable(text)
  {
    DecodesIff(text, []);
    assert text + [] == text;
  }

  /** The fragment is nothing, an identifier or a path that can be read. */
  ghost predicate TargetReadable(u: Raw, library: Library) {
    u.fragment.None? ||
    var f := u.fragment.value;
    if IsId(f) then (if IsFid(f) then library.fid(f).Some? else Readable(f[1..|f| - 1])) else Readable(f)
  }

  lemma TargetIff(u: Raw, library: Library)
    ensures TargetOf(u, library).Some? <==> TargetReadable(u, library)
  {
    hide Decode, IsFid;
    if u.fragment.Some? {
      var f := u.fragment.value;
      if IsId(f) {
        assert f[1..] == f[1..|f| - 1] + [CLOSE];
        DecodesIff(f[1..|f| - 1], [CLOSE]);
      } else {
        WholeDecodesIff(f);
      }
    }
  }

  /** A URI has a meaning exactly if its scheme is `rbh`, its port, if it has one, is a number, a
      colon cuts its path in two parts that can be read, and its fragment can. */
  lemma InterpretsIff(u: Raw, before: Text, after: Text, library: Library)
    requires u.path == before + [COLON] + after && COLON !in before
    ensures Interpret(u, library).Some? <==>
            && u.scheme == [114, 98, 104] && (u.port.Some? ==> library.port(u.port.value).Some?)
            && Readable(if before != [] && before[0] == SLASH then before[1..] else before) && Readable(after)
            && TargetReadable(u, library)
  {
    hide Decode, Readable, TargetOf, TargetReadable, First;
    assert u.path[..|before|] == before && u.path[|before|] == COLON;
    FirstIs(u.path, |before|, COLON);
    var start := BackendStart(u.path);
    var backend := if before != [] && before[0] == SLASH then before[1..] else before;
    assert u.path[0] == if before != [] then before[0] else COLON;
    assert u.path[start..] == backend + ([COLON] + after) && u.path[|before| + 1..] == after;
    DecodesIff(backend, [COLON] + after);
    WholeDecodesIff(after);
    TargetIff(u, library);
  }

  lemma NoColonNoMeaning(u: Raw, library: Library)
    requires COLON !in u.path
    ensures Interpret(u, library).None?
  {
  }
}
