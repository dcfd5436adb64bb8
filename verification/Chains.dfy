/** Aliases within aliases: the names that are being resolved at one time, and the room that they
    need in the history.
 */
module Chains {
  import opened Substitution

  const HISTORY_SIZE: nat := 1024

  // ------------------------------------------------------------------ the history

  function Weight(names: seq<string>): nat {
    if names == [] then 0 else Weight(names[..|names| - 1]) + |names[|names| - 1]| + 1
  }

  function Keys(table: Table): seq<string> {
    seq(|table|, i requires 0 <= i < |table| => table[i].key)
  }

  ghost predicate Distinct(names: seq<string>) {
    forall i, j | 0 <= i < j < |names| :: names[i] != names[j]
  }

  lemma WeightOfLast(names: seq<string>, name: string)
    ensures Weight(names + [name]) == Weight(names) + |name| + 1
  {
    assert (names + [name])[..|names|] == names;
  }

  lemma {:induction false} WeightWithout(names: seq<string>, k: nat)
    requires k < |names|
    ensures Weight(names) == Weight(names[..k] + names[k + 1..]) + |names[k]| + 1
  {
    hide Weight;
    var n := |names| - 1;
    var rest, last := names[..k] + names[k + 1..], names[n];
    assert names == names[..n] + [last];
    WeightOfLast(names[..n], last);
    if k < n {
      WeightWithout(names[..n], k);
      var shorter := names[..n][..k] + names[..n][k + 1..];
      WeightOfLast(shorter, last);
      assert rest == shorter + [last];
    } else {
      assert rest == names[..n];
    }
  }

  /** Distinct names of the table weigh no more than the table. */
  lemma {:induction false} HistoryFits(history: seq<string>, keys: seq<string>)
    requires Distinct(history) && forall h | h in history :: h in keys
    ensures Weight(history) <= Weight(keys) && |history| <= |keys|
  {
    if history != [] {
      var n := |history| - 1;
      assert history[n] in history;
      var k :| 0 <= k < |keys| && keys[k] == history[n];
      WeightWithout(keys, k);
      var others := keys[..k] + keys[k + 1..];
      forall h | h in history[..n] ensures h in others {
        var i :| 0 <= i < n && history[i] == h;
        assert h in history;
        var j :| 0 <= j < |keys| && keys[j] == h;
        assert j != k;
        assert others[if j < k then j else j - 1] == h;
      }
      HistoryFits(history[..n], others);
    }
  }

  // ------------------------------------------------------------------ chains

  /** Each name is a known alias, referred to in the value of the one before it; the first one in
      the command line. */
  ghost predicate Chain(table: Table, line: seq<Unit>, names: seq<string>) {
    && names != []
    && var n := |names| - 1;
       && Find(table, names[n]).Some?
       && if n == 0 then Ref(names[0]) in line
          else Chain(table, line, names[..n]) && Ref(names[n]) in Value(table, names[n - 1])
  }

  /** No chain of distinct names is too long for the history. */
  ghost predicate ChainsFit(table: Table, line: seq<Unit>) {
    forall names | Chain(table, line, names) && Distinct(names) :: Weight(names) <= HISTORY_SIZE
  }

  lemma {:induction false} ChainIsKnown(table: Table, line: seq<Unit>, names: seq<string>, i: nat)
    requires Chain(table, line, names) && i < |names|
    ensures Find(table, names[i]).Some?
    decreases |names|
  {
    if i < |names| - 1 {
      ChainIsKnown(table, line, names[..|names| - 1], i);
    }
  }

  /** If all names together fit, every chain does. */
  lemma TableFits(table: Table, line: seq<Unit>)
    requires Weight(Keys(table)) <= HISTORY_SIZE
    ensures ChainsFit(table, line)
  {
    forall names | Chain(table, line, names) && Distinct(names) ensures Weight(names) <= HISTORY_SIZE {
      forall h | h in names ensures h in Keys(table) {
        var i :| 0 <= i < |names| && names[i] == h;
        ChainIsKnown(table, line, names, i);
        assert Keys(table)[Find(table, h).value] == h;
      }
      HistoryFits(names, Keys(table));
    }
  }

  // ------------------------------------------------------------------ chains that end

  /** The least depth at which substitution ends. */
  ghost function Rank(table: Table, us: seq<Unit>): (d: nat)
    requires Finite(table, us)
    ensures Unfold(table, us, d).Some? && (d > 0 ==> Unfold(table, us, d - 1).None?)
  {
    var depth: nat :| Unfold(table, us, depth).Some?;
    LeastFrom(table, us, depth)
  }

  function LeastFrom(table: Table, us: seq<Unit>, depth: nat): (d: nat)
    requires Unfold(table, us, depth).Some?
    ensures Unfold(table, us, d).Some? && (d > 0 ==> Unfold(table, us, d - 1).None?)
  {
    if depth == 0 || Unfold(table, us, depth - 1).None? then depth else LeastFrom(table, us, depth - 1)
  }

  lemma RankIsLeast(table: Table, us: seq<Unit>, d: nat)
    requires Unfold(table, us, d).Some?
    ensures Finite(table, us) && Rank(table, us) <= d
  {
    var r := Rank(table, us);
    if d < r {
      UnfoldMonotone(table, us, d, r - 1);
    }
  }

  lemma {:induction false} UnfoldOfMember(table: Table, us: seq<Unit>, name: string, d: nat)
    requires Ref(name) in us && Unfold(table, us, d).Some?
    ensures Unfold(table, [Ref(name)], d).Some?
    decreases |us|
  {
    UnfoldOfRef(table, name, d);
    if us[0] != Ref(name) {
      UnfoldOfMember(table, us[1..], name, d);
    }
  }

  lemma RankBelow(table: Table, above: string, name: string)
    requires Find(table, above).Some? && Ref(name) in Value(table, above) && Finite(table, [Ref(above)])
    ensures Finite(table, [Ref(name)]) && Rank(table, [Ref(name)]) < Rank(table, [Ref(above)])
  {
    hide Unfold, Value, Find;
    var d := Rank(table, [Ref(above)]);
    UnfoldOfRef(table, above, d);
    UnfoldOfMember(table, Value(table, above), name, d - 1);
    RankIsLeast(table, [Ref(name)], d - 1);
  }

  /** Along a chain whose substitution ends, ranks go down: no name comes twice. */
  lemma {:induction false} ChainDescends(table: Table, line: seq<Unit>, names: seq<string>)
    requires Finite(table, line) && Chain(table, line, names)
    ensures Finite(table, [Ref(names[|names| - 1])]) && Distinct(names)
    ensures forall i | 0 <= i < |names| - 1 ::
              Finite(table, [Ref(names[i])]) && Rank(table, [Ref(names[|names| - 1])]) < Rank(table, [Ref(names[i])])
    decreases |names|
  {
    hide Finite, Unfold, Value, Find, Rank;
    var n := |names| - 1;
    if n == 0 {
      MemberIsFinite(table, line, names[0]);
    } else {
      var earlier := names[..n];
      ChainDescends(table, line, earlier);
      RankBelow(table, names[n - 1], names[n]);
      forall i | 0 <= i < n
        ensures Finite(table, [Ref(names[i])]) && Rank(table, [Ref(names[n])]) < Rank(table, [Ref(names[i])])
      {
        assert earlier[i] == names[i];
      }
      forall i, j | 0 <= i < j < |names| ensures names[i] != names[j] {
        assert i < n && earlier[i] == names[i];
        assert j < n ==> earlier[j] == names[j];
      }
    }
  }

  lemma MemberIsFinite(table: Table, us: seq<Unit>, name: string)
    requires Finite(table, us) && Ref(name) in us
    ensures Finite(table, [Ref(name)])
  {
    UnfoldOfMember(table, us, name, Rank(table, us));
  }

  // ------------------------------------------------------------------ what the history holds

  /** There is a chain to `name` that weighs as much as the history and the name: with single names
      the history itself, otherwise one that may have been longer. */
  ghost predicate Bounded(table: Table, line: seq<Unit>, history: seq<string>, name: string) {
    Find(table, name).Some? ==>
      exists names :: ChainTo(table, line, history, name, names)
  }

  ghost predicate ChainTo(table: Table, line: seq<Unit>, history: seq<string>, name: string, names: seq<string>) {
    && Chain(table, line, names) && names[|names| - 1] == name
    && if SingleNames(table) then names == history + [name] else Weight(history) + |name| + 1 <= Weight(names)
  }

  ghost predicate AllBounded(table: Table, line: seq<Unit>, history: seq<string>, us: seq<Unit>) {
    forall i | 0 <= i < |us| && us[i].Ref? :: Bounded(table, line, history, us[i].name)
  }

  /** A name that is not in the history fits. */
  lemma BoundedFits(table: Table, line: seq<Unit>, history: seq<string>, name: string)
    requires ChainsFit(table, line) && (SingleNames(table) || Finite(table, line))
    requires Bounded(table, line, history, name) && Find(table, name).Some? && Distinct(history) && name !in history
    ensures Weight(history) + |name| + 1 <= HISTORY_SIZE
  {
    var names :| ChainTo(table, line, history, name, names);
    WeightOfLast(history, name);
    if !SingleNames(table) {
      ChainDescends(table, line, names);
    }
  }

  /** The references of the command line. */
  lemma LineBounded(table: Table, line: seq<Unit>)
    ensures AllBounded(table, line, [], line)
  {
    forall i | 0 <= i < |line| && line[i].Ref? ensures Bounded(table, line, [], line[i].name) {
      var names := [line[i].name];
      assert Ref(names[0]) in line && [] + names == names;
      WeightOfLast([], names[0]);
      if Find(table, line[i].name).Some? {
        assert ChainTo(table, line, [], line[i].name, names);
      }
    }
  }

  /** The references in the value of an alias that was remembered. */
  lemma ValueBounded(table: Table, line: seq<Unit>, history: seq<string>, name: string)
    requires Bounded(table, line, history, name) && Find(table, name).Some?
    ensures AllBounded(table, line, history + [name], Value(table, name))
  {
    var names :| ChainTo(table, line, history, name, names);
    var value := Value(table, name);
    WeightOfLast(history, name);
    forall i | 0 <= i < |value| && value[i].Ref? ensures Bounded(table, line, history + [name], value[i].name) {
      var more := names + [value[i].name];
      assert more[..|names|] == names && Ref(value[i].name) in value;
      WeightOfLast(names, value[i].name);
      if Find(table, value[i].name).Some? {
        assert ChainTo(table, line, history + [name], value[i].name, more);
      }
    }
  }

  /** What is left after an alias was resolved: with single names, no reference. */
  lemma ForgottenBounded(table: Table, line: seq<Unit>, history: seq<string>, name: string, us: seq<Unit>)
    requires AllBounded(table, line, history + [name], us)
    requires SingleNames(table) ==> forall i | 0 <= i < |us| :: us[i].Plain?
    ensures AllBounded(table, line, history, us)
  {
    WeightOfLast(history, name);
    forall i | 0 <= i < |us| && us[i].Ref? ensures Bounded(table, line, history, us[i].name) {
      assert Bounded(table, line, history + [name], us[i].name);
      if Find(table, us[i].name).Some? {
        var names :| ChainTo(table, line, history + [name], us[i].name, names);
        assert ChainTo(table, line, history, us[i].name, names);
      }
    }
  }

  lemma ReplacedBounded(table: Table, line: seq<Unit>, history: seq<string>, a: seq<Unit>, u: Unit, b: seq<Unit>, x: seq<Unit>)
    requires AllBounded(table, line, history, a + [u] + b) && AllBounded(table, line, history, x)
    ensures AllBounded(table, line, history, a + x + b)
  {
    hide Bounded;
    var us, us' := a + [u] + b, a + x + b;
    forall i | 0 <= i < |us'| && us'[i].Ref? ensures Bounded(table, line, history, us'[i].name) {
      if |a| + |x| <= i {
        assert us'[i] == us[i - |x| + 1];
      } else if i < |a| {
        assert us'[i] == us[i];
      } else {
        assert us'[i] == x[i - |a|];
      }
    }
  }
}
