/** Splitting a URI into its components, and putting it together again as in section 5.3 of
    RFC 3986. The fragment starts at the last `#`, the query at the last `?` before it.
 */
module Uri {
  import opened Wrappers

  type Text = seq<byte>

  datatype Authority = Authority(userinfo: Option<Text>, host: Text, port: Option<Text>)

  datatype RawUri = RawUri(scheme: Text, authority: Option<Authority>, path: Text, query: Option<Text>, fragment: Option<Text>)

  const COLON: byte := 58
  const POUND: byte := 35
  const QUESTION: byte := 63
  const SLASH: byte := 47
  const AT: byte := 64

  predicate Alpha(c: byte) {
    65 <= c <= 90 || 97 <= c <= 122
  }

  predicate SchemeChar(c: byte) {
    Alpha(c) || 48 <= c <= 57 || c == 43 || c == 45 || c == 46
  }

  /** How far `s` goes with characters of a scheme. */
  function SchemeRun(s: Text): (n: nat)
    ensures n <= |s| && (forall i | 0 <= i < n :: SchemeChar(s[i])) && (n < |s| ==> !SchemeChar(s[n]))
  {
    if s == [] || !SchemeChar(s[0]) then 0 else 1 + SchemeRun(s[1..])
  }

  // ------------------------------------------------------------------ cutting

  /** Where a byte occurs first; the length if it does not. */
  function First(s: Text, c: byte): (k: nat)
    ensures k <= |s| && c !in s[..k] && (k < |s| ==> s[k] == c)
  {
    if s == [] || s[0] == c then 0 else 1 + First(s[1..], c)
  }

  /** Where a byte occurs last; the length if it does not. */
  function Last(s: Text, c: byte): (k: nat)
    ensures k <= |s| && (k < |s| ==> s[k] == c && c !in s[k + 1..]) && (k == |s| ==> c !in s)
  {
    if s == [] then 0
    else
      var n := |s| - 1;
      if s[n] == c then n
      else
        var k := Last(s[..n], c);
        assert s == s[..n] + [s[n]];
        if k == n then |s| else assert s[k + 1..] == s[..n][k + 1..] + [s[n]]; k
  }

  /** A text before a separator, and what follows it, if it is there. */
  datatype Cut = Cut(before: Text, after: Option<Text>)

  function CutAt(s: Text, k: nat): Cut
    requires k <= |s|
  {
    if k < |s| then Cut(s[..k], Some(s[k + 1..])) else Cut(s, None)
  }

  function Glue(cut: Cut, c: byte): Text {
    cut.before + if cut.after.Some? then [c] + cut.after.value else []
  }

  lemma GlueOfCut(s: Text, k: nat, c: byte)
    requires k <= |s| && (k < |s| ==> s[k] == c)
    ensures Glue(CutAt(s, k), c) == s
  {
  }

  lemma {:induction false} FirstIs(s: Text, k: nat, c: byte)
    requires k <= |s| && (forall i | 0 <= i < k :: s[i] != c) && (k < |s| ==> s[k] == c)
    ensures First(s, c) == k
  {
    if k > 0 {
      FirstIs(s[1..], k - 1, c);
    }
  }

  lemma {:induction false} LastIs(s: Text, k: nat, c: byte)
    requires k <= |s| && (k < |s| ==> s[k] == c) && forall i | 0 <= i < |s| && (k == |s| || i > k) :: s[i] != c
    ensures Last(s, c) == k
  {
    if s != [] {
      var n := |s| - 1;
      if k != n {
        LastIs(s[..n], if k == |s| then n else k, c);
      }
    }
  }

  lemma FirstOfGlue(cut: Cut, c: byte)
    requires c !in cut.before
    ensures CutAt(Glue(cut, c), First(Glue(cut, c), c)) == cut
  {
    var s, n := Glue(cut, c), |cut.before|;
    assert forall i | 0 <= i < n :: s[i] == cut.before[i];
    FirstIs(s, n, c);
    assert s[..n] == cut.before;
    if cut.after.Some? {
      assert s[n + 1..] == cut.after.value;
    }
  }

  lemma LastOfGlue(cut: Cut, c: byte)
    requires if cut.after.Some? then c !in cut.after.value else c !in cut.before
    ensures CutAt(Glue(cut, c), Last(Glue(cut, c), c)) == cut
  {
    var s, n := Glue(cut, c), |cut.before|;
    if cut.after.Some? {
      assert forall i | n < i < |s| :: s[i] == cut.after.value[i - n - 1];
    } else {
      assert s == cut.before;
    }
    LastIs(s, n, c);
    assert s[..n] == cut.before;
    if cut.after.Some? {
      assert s[n + 1..] == cut.after.value;
    }
  }

  // ------------------------------------------------------------------ the split and its inverse

  function ParseAuthority(s: Text): Authority {
    var user := CutAt(s, First(s, AT));
    var hostport := if user.after.Some? then user.after.value else s;
    var host := CutAt(hostport, Last(hostport, COLON));
    Authority(if user.after.Some? then Some(user.before) else None, host.before, host.after)
  }

  function Hierarchy(s: Text): (Option<Authority>, Text) {
    if |s| < 2 || s[0] != SLASH || s[1] != SLASH then (None, s)
    else
      var k := First(s[2..], SLASH);
      (Some(ParseAuthority(s[2..][..k])), s[2..][k..])
  }

  /** The components of a URI; none unless it starts with a scheme and a colon. */
  function Parse(s: Text): Option<RawUri> {
    if s == [] || !Alpha(s[0]) then None
    else
      var n := SchemeRun(s);
      if n == |s| || s[n] != COLON then None
      else
        var fragment := CutAt(s[n + 1..], Last(s[n + 1..], POUND));
        var query := CutAt(fragment.before, Last(fragment.before, QUESTION));
        var (authority, path) := Hierarchy(query.before);
        Some(RawUri(s[..n], authority, path, query.after, fragment.after))
  }

  function PrintAuthority(a: Authority): Text {
    (if a.userinfo.Some? then a.userinfo.value + [AT] else []) + Glue(Cut(a.host, a.port), COLON)
  }

  function PrintHierarchy(authority: Option<Authority>, path: Text): Text {
    (if authority.Some? then [SLASH, SLASH] + PrintAuthority(authority.value) else []) + path
  }

  function Recompose(u: RawUri): Text {
    u.scheme + [COLON] + Glue(Cut(Glue(Cut(PrintHierarchy(u.authority, u.path), u.query), QUESTION), u.fragment), POUND)
  }

  lemma AuthorityRoundTrip(s: Text)
    ensures PrintAuthority(ParseAuthority(s)) == s
  {
    hide CutAt, First, Last, Glue;
    var user := CutAt(s, First(s, AT));
    var hostport := if user.after.Some? then user.after.value else s;
    GlueOfCut(s, First(s, AT), AT);
    GlueOfCut(hostport, Last(hostport, COLON), COLON);
    GlueIs(user, AT);
    var host := CutAt(hostport, Last(hostport, COLON));
    assert Cut(host.before, host.after) == host;
    assert [] + hostport == hostport;
  }

  lemma GlueIs(cut: Cut, c: byte)
    ensures cut.after.Some? ==> Glue(cut, c) == cut.before + [c] + cut.after.value
    ensures cut.after.None? ==> Glue(cut, c) == cut.before
  {
  }

  lemma HierarchyRoundTrip(s: Text)
    ensures PrintHierarchy(Hierarchy(s).0, Hierarchy(s).1) == s
  {
    hide First, ParseAuthority, PrintAuthority;
    if !(|s| < 2 || s[0] != SLASH || s[1] != SLASH) {
      var a := s[2..];
      var k := First(a, SLASH);
      AuthorityRoundTrip(a[..k]);
      assert s == [SLASH, SLASH] + a[..k] + a[k..];
    } else {
      assert [] + s == s;
    }
  }

  /** Putting the components of an accepted URI together gives the URI. */
  lemma RecomposeOfParse(s: Text)
    requires Parse(s).Some?
    ensures Recompose(Parse(s).value) == s
  {
    hide CutAt, Last, Glue, SchemeRun, Hierarchy, PrintHierarchy;
    var n := SchemeRun(s);
    var rest := s[n + 1..];
    var fragment := CutAt(rest, Last(rest, POUND));
    var query := CutAt(fragment.before, Last(fragment.before, QUESTION));
    GlueOfCut(rest, Last(rest, POUND), POUND);
    GlueOfCut(fragment.before, Last(fragment.before, QUESTION), QUESTION);
    HierarchyRoundTrip(query.before);
    assert Cut(query.before, query.after) == query && Cut(fragment.before, fragment.after) == fragment;
    assert s == s[..n] + [COLON] + rest;
  }

  // ------------------------------------------------------------------ which URIs there are

  predicate CanonicalAuthority(a: Authority) {
    && SLASH !in PrintAuthority(a)
    && (if a.userinfo.Some? then AT !in a.userinfo.value else AT !in PrintAuthority(a))
    && (if a.port.Some? then COLON !in a.port.value else COLON !in a.host)
  }

  /** No component holds the separator that would end it, or that would have ended one before. */
  predicate Canonical(u: RawUri) {
    && u.scheme != [] && Alpha(u.scheme[0]) && (forall i | 0 <= i < |u.scheme| :: SchemeChar(u.scheme[i]))
    && (if u.authority.Some? then CanonicalAuthority(u.authority.value) && (u.path == [] || u.path[0] == SLASH)
        else |u.path| < 2 || u.path[0] != SLASH || u.path[1] != SLASH)
    && var hierarchy := PrintHierarchy(u.authority, u.path);
       && (if u.query.Some? then QUESTION !in u.query.value else QUESTION !in hierarchy)
       && (if u.fragment.Some? then POUND !in u.fragment.value else POUND !in Glue(Cut(hierarchy, u.query), QUESTION))
  }

  lemma ParseOfPrintAuthority(a: Authority)
    requires CanonicalAuthority(a)
    ensures ParseAuthority(PrintAuthority(a)) == a
  {
    hide First, Last, CutAt, Glue;
    var s, hostport := PrintAuthority(a), Glue(Cut(a.host, a.port), COLON);
    LastOfGlue(Cut(a.host, a.port), COLON);
    if a.userinfo.Some? {
      GlueIs(Cut(a.userinfo.value, Some(hostport)), AT);
      FirstOfGlue(Cut(a.userinfo.value, Some(hostport)), AT);
    } else {
      assert s == hostport;
      GlueIs(Cut(s, None), AT);
      FirstOfGlue(Cut(s, None), AT);
    }
  }

  lemma HierarchyOfPrint(authority: Option<Authority>, path: Text)
    requires if authority.Some? then CanonicalAuthority(authority.value) && (path == [] || path[0] == SLASH)
             else |path| < 2 || path[0] != SLASH || path[1] != SLASH
    ensures Hierarchy(PrintHierarchy(authority, path)) == (authority, path)
  {
    hide First, ParseAuthority, PrintAuthority;
    var s := PrintHierarchy(authority, path);
    if authority.Some? {
      var a := PrintAuthority(authority.value);
      assert NoSlash(authority.value) by { SlashFree(authority.value); }
      assert s[2..] == a + path;
      assert forall i | 0 <= i < |a| :: (a + path)[i] == a[i];
      FirstIs(a + path, |a|, SLASH);
      assert (a + path)[..|a|] == a && (a + path)[|a|..] == path;
      ParseOfPrintAuthority(authority.value);
    } else {
      assert s == path;
    }
  }

  predicate NoSlash(a: Authority) {
    SLASH !in PrintAuthority(a)
  }

  lemma SlashFree(a: Authority)
    requires CanonicalAuthority(a)
    ensures NoSlash(a)
  {
  }

  lemma {:induction false} SchemeRunIs(s: Text, n: nat)
    requires n < |s| && (forall i | 0 <= i < n :: SchemeChar(s[i])) && !SchemeChar(s[n])
    ensures SchemeRun(s) == n
  {
    if n > 0 {
      SchemeRunIs(s[1..], n - 1);
    }
  }

  /** Every canonical URI is read back from its text. */
  lemma ParseOfRecompose(u: RawUri)
    requires Canonical(u)
    ensures Parse(Recompose(u)) == Some(u)
  {
    hide CutAt, Last, Glue, SchemeRun, Hierarchy, PrintHierarchy, CanonicalAuthority;
    var s, n := Recompose(u), |u.scheme|;
    var hierarchy := PrintHierarchy(u.authority, u.path);
    var query := Cut(hierarchy, u.query);
    var fragment := Cut(Glue(query, QUESTION), u.fragment);
    assert forall i | 0 <= i < n :: s[i] == u.scheme[i];
    assert s[n] == COLON && s[..n] == u.scheme && s[n + 1..] == Glue(fragment, POUND);
    SchemeRunIs(s, n);
    LastOfGlue(fragment, POUND);
    LastOfGlue(query, QUESTION);
    HierarchyOfPrint(u.authority, u.path);
  }

  lemma AuthorityIsCanonical(s: Text)
    requires SLASH !in s
    ensures CanonicalAuthority(ParseAuthority(s))
  {
    AuthorityRoundTrip(s);
  }

  lemma CutLastIsClean(s: Text, c: byte)
    ensures var cut := CutAt(s, Last(s, c));
            (if cut.after.Some? then c !in cut.after.value else c !in cut.before) && Glue(cut, c) == s
  {
    GlueOfCut(s, Last(s, c), c);
  }

  lemma HierarchyIsCanonical(s: Text)
    ensures var (authority, path) := Hierarchy(s);
            if authority.Some? then CanonicalAuthority(authority.value) && (path == [] || path[0] == SLASH)
            else |path| < 2 || path[0] != SLASH || path[1] != SLASH
  {
    hide ParseAuthority, CanonicalAuthority, First;
    if !(|s| < 2 || s[0] != SLASH || s[1] != SLASH) {
      AuthorityIsCanonical(s[2..][..First(s[2..], SLASH)]);
    }
  }

  /** What is read from a URI is canonical. */
  lemma ParseIsCanonical(s: Text)
    requires Parse(s).Some?
    ensures Canonical(Parse(s).value)
  {
    hide CanonicalAuthority, PrintHierarchy, Hierarchy, SchemeRun, Last, CutAt, Glue;
    var n := SchemeRun(s);
    var rest := s[n + 1..];
    var fragment := CutAt(rest, Last(rest, POUND));
    var query := CutAt(fragment.before, Last(fragment.before, QUESTION));
    CutLastIsClean(rest, POUND);
    CutLastIsClean(fragment.before, QUESTION);
    HierarchyRoundTrip(query.before);
    HierarchyIsCanonical(query.before);
    assert Cut(query.before, query.after) == query;
    SchemeStarts(s);
  }

  lemma SchemeStarts(s: Text)
    requires s != [] && Alpha(s[0])
    ensures SchemeRun(s) > 0
  {
  }
}
