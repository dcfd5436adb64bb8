/** Command lines with aliases, and what substituting every alias gives.

    A command line is a sequence of plain arguments and of references to aliases; the value of
    an alias may hold references again.
 */
module Substitution {
  import opened Wrappers
  import opened Tokens

  const FLAG: string := "--alias"

  datatype Unit = Plain(arg: string) | Ref(name: string)

  datatype Alias = Alias(key: string, value: string)

  type Table = seq<Alias>

  // ------------------------------------------------------------------ arguments and units

  function Refs(names: seq<string>): seq<Unit> {
    seq(|names|, i requires 0 <= i < |names| => Ref(names[i]))
  }

  /** The units of a command line. A reference may list several names. A flag with nothing after
      it is an argument like any other. */
  function Parse(argv: seq<string>): seq<Unit> {
    if argv == [] then []
    else if argv[0] == FLAG && |argv| > 1 then Refs(Pieces(argv[1], ',')) + Parse(argv[2..])
    else [Plain(argv[0])] + Parse(argv[1..])
  }

  function PrintOne(u: Unit): seq<string> {
    match u
    case Plain(a) => [a]
    case Ref(n) => [FLAG, n]
  }

  function Print(us: seq<Unit>): seq<string> {
    if us == [] then [] else PrintOne(us[0]) + Print(us[1..])
  }

  /** The last argument is a flag that no name follows. */
  predicate Dangling(argv: seq<string>) {
    argv != [] && if argv[0] == FLAG then |argv| == 1 || Dangling(argv[2..]) else Dangling(argv[1..])
  }

  /** Every flag is followed by at least one name. */
  predicate Named(argv: seq<string>) {
    argv == [] || if argv[0] == FLAG then |argv| > 1 && Pieces(argv[1], ',') != [] && Named(argv[2..]) else Named(argv[1..])
  }

  /** Every flag is followed by exactly one name. */
  predicate NamedOnce(argv: seq<string>) {
    argv == [] || if argv[0] == FLAG then |argv| > 1 && |Pieces(argv[1], ',')| == 1 && NamedOnce(argv[2..]) else NamedOnce(argv[1..])
  }

  predicate Clean(u: Unit) {
    match u
    case Plain(a) => a != FLAG
    case Ref(n) => n != "" && ',' !in n
  }

  predicate AllClean(us: seq<Unit>) {
    forall i | 0 <= i < |us| :: Clean(us[i])
  }

  lemma {:induction false} ParseIsClean(argv: seq<string>)
    requires !Dangling(argv)
    ensures AllClean(Parse(argv))
  {
    if argv != [] {
      if argv[0] == FLAG {
        var names := Pieces(argv[1], ',');
        PiecesAreProper(argv[1], ',');
        assert forall i | 0 <= i < |names| :: names[i] in names && Refs(names)[i] == Ref(names[i]);
        ParseIsClean(argv[2..]);
      } else {
        ParseIsClean(argv[1..]);
      }
    }
  }

  /** Reading back what was printed: cutting the names once more changes nothing. */
  lemma {:induction false} ParseOfPrint(us: seq<Unit>)
    requires AllClean(us)
    ensures Parse(Print(us)) == us && !Dangling(Print(us))
  {
    if us != [] {
      ParseOfPrint(us[1..]);
      var argv := Print(us);
      assert argv == PrintOne(us[0]) + Print(us[1..]) && us == [us[0]] + us[1..];
      if us[0].Ref? {
        PieceIsItself(us[0].name, ',');
        assert argv[2..] == Print(us[1..]);
        assert Refs([us[0].name]) == [us[0]];
      } else {
        assert argv[1..] == Print(us[1..]);
      }
    }
  }

  lemma {:induction false} ParseOfConcat(a: seq<string>, b: seq<string>)
    requires !Dangling(a)
    ensures Parse(a + b) == Parse(a) + Parse(b)
  {
    hide Pieces, Refs;
    if a == [] {
      assert a + b == b;
    } else if a[0] == FLAG {
      assert (a + b)[2..] == a[2..] + b;
      ParseOfConcat(a[2..], b);
    } else {
      assert (a + b)[1..] == a[1..] + b;
      ParseOfConcat(a[1..], b);
    }
  }

  lemma {:induction false} PrintOfConcat(a: seq<Unit>, b: seq<Unit>)
    ensures Print(a + b) == Print(a) + Print(b)
  {
    if a == [] {
      assert a + b == b;
    } else {
      assert (a + b)[1..] == a[1..] + b;
      PrintOfConcat(a[1..], b);
    }
  }

  lemma {:induction false} PrintOfRefs(names: seq<string>)
    ensures |Print(Refs(names))| == 2 * |names|
    ensures forall i | 0 <= i < |names| :: Print(Refs(names))[2 * i] == FLAG && Print(Refs(names))[2 * i + 1] == names[i]
  {
    if names != [] {
      var rest := Refs(names[1..]);
      assert Refs(names)[1..] == rest;
      PrintOfRefs(names[1..]);
      forall i | 0 < i < |names|
        ensures Print(Refs(names))[2 * i] == FLAG && Print(Refs(names))[2 * i + 1] == names[i]
      {
        assert Print(rest)[2 * (i - 1)] == FLAG && Print(rest)[2 * (i - 1) + 1] == names[1..][i - 1];
      }
    }
  }

  ghost predicate ProperNames(names: seq<string>) {
    forall n | n in names :: n != "" && ',' !in n
  }

  /** A list of names is one reference for each, in their order; cut, it is one flag and name for
      each. */
  lemma ParseOfList(names: seq<string>)
    requires ProperNames(names)
    ensures var us := Parse([FLAG, Join(names, ',')]);
            && |us| == |names| && (forall i | 0 <= i < |names| :: us[i] == Ref(names[i]))
            && |Print(us)| == 2 * |names|
            && forall i | 0 <= i < |names| :: Print(us)[2 * i] == FLAG && Print(us)[2 * i + 1] == names[i]
  {
    hide Pieces, Join, Print;
    var argv := [FLAG, Join(names, ',')];
    PiecesOfJoin(names, ',');
    PrintOfRefs(names);
    assert argv[2..] == [] && Parse(argv) == Refs(names) + [];
    assert Refs(names) + [] == Refs(names);
  }

  /** Cutting lists of names makes a command line longer; it keeps its length if the lists
      are single names. */
  lemma {:induction false} LengthOfPrint(argv: seq<string>)
    requires Named(argv)
    ensures |argv| <= |Print(Parse(argv))| && !Dangling(argv)
    ensures NamedOnce(argv) ==> |Print(Parse(argv))| == |argv|
  {
    if argv != [] {
      if argv[0] == FLAG {
        var names := Pieces(argv[1], ',');
        PrintOfConcat(Refs(names), Parse(argv[2..]));
        PrintOfRefs(names);
        LengthOfPrint(argv[2..]);
      } else {
        LengthOfPrint(argv[1..]);
        assert Parse(argv)[1..] == Parse(argv[1..]);
      }
    }
  }

  /** The first flag of a printed line, and the units around it. */
  lemma {:induction false} FirstFlag(us: seq<Unit>, k: nat)
    requires AllClean(us) && k < |Print(us)| && Print(us)[k] == FLAG && FLAG !in Print(us)[..k]
    ensures k < |us| && k + 1 < |Print(us)| && us[k] == Ref(Print(us)[k + 1]) && Print(us[..k]) == Print(us)[..k]
  {
    assert Print(us) == PrintOne(us[0]) + Print(us[1..]);
    if k == 0 {
    } else {
      assert Print(us)[..k][0] == Print(us)[0];
      assert us[0].Plain?;
      assert Print(us)[1..] == Print(us[1..]);
      forall j | 0 <= j < k - 1 ensures Print(us[1..])[j] != FLAG {
        assert Print(us)[..k][j + 1] == Print(us[1..])[j];
      }
      FirstFlag(us[1..], k - 1);
      assert us[..k][1..] == us[1..][..k - 1];
    }
  }

  lemma {:induction false} NoFlagIsPlain(us: seq<Unit>)
    requires AllClean(us) && FLAG !in Print(us)
    ensures forall i | 0 <= i < |us| :: us[i].Plain?
  {
    if us != [] {
      assert Print(us) == PrintOne(us[0]) + Print(us[1..]);
      assert Print(us)[0] != FLAG;
      NoFlagIsPlain(us[1..]);
    }
  }

  // ------------------------------------------------------------------ the table

  /** The alias that a name stands for: the first one with that key. */
  function Find(table: Table, name: string): (r: Option<nat>)
    ensures r.Some? ==> r.value < |table| && table[r.value].key == name && forall i | 0 <= i < r.value :: table[i].key != name
    ensures r.None? ==> forall a | a in table :: a.key != name
  {
    FindFrom(table, name, 0)
  }

  function FindFrom(table: Table, name: string, from: nat): (r: Option<nat>)
    requires from <= |table|
    ensures r.Some? ==> from <= r.value < |table| && table[r.value].key == name
                        && forall i | from <= i < r.value :: table[i].key != name
    ensures r.None? ==> forall i | from <= i < |table| :: table[i].key != name
    decreases |table| - from
  {
    if from == |table| then None else if table[from].key == name then Some(from) else FindFrom(table, name, from + 1)
  }

  function Tokenized(a: Alias): seq<string> {
    Pieces(a.value, ' ')
  }

  function Value(table: Table, name: string): seq<Unit>
    requires Find(table, name).Some?
  {
    Parse(Tokenized(table[Find(table, name).value]))
  }

  /** Values are single-space separated and each of their flags is followed by a name. */
  predicate WellFormed(table: Table) {
    forall a | a in table :: WellSeparated(a.value, ' ') && Named(Tokenized(a))
  }

  predicate SingleNames(table: Table) {
    forall a | a in table :: NamedOnce(Tokenized(a))
  }

  // ------------------------------------------------------------------ full substitution

  function Both(a: Option<seq<string>>, b: Option<seq<string>>): Option<seq<string>> {
    if a.Some? && b.Some? then Some(a.value + b.value) else None
  }

  lemma BothAssociative(a: Option<seq<string>>, b: Option<seq<string>>, c: Option<seq<string>>)
    ensures Both(Both(a, b), c) == Both(a, Both(b, c)) && Both(Some([]), c) == c
  {
    if c.Some? {
      assert [] + c.value == c.value;
    }
    if a.Some? && b.Some? && c.Some? {
      assert a.value + b.value + c.value == a.value + (b.value + c.value);
    }
  }

  /** Replaces references, and those in their values, down to `depth` levels. */
  function Unfold(table: Table, us: seq<Unit>, depth: nat): Option<seq<string>>
    decreases depth, |us|
  {
    if us == [] then Some([]) else Both(UnfoldOne(table, us[0], depth), Unfold(table, us[1..], depth))
  }

  function UnfoldOne(table: Table, u: Unit, depth: nat): Option<seq<string>>
    decreases depth, 0
  {
    match u
    case Plain(a) => Some([a])
    case Ref(n) => if depth == 0 || Find(table, n).None? then None else Unfold(table, Value(table, n), depth - 1)
  }

  /** Substitution comes to an end. */
  ghost predicate Finite(table: Table, us: seq<Unit>) {
    exists depth: nat :: Unfold(table, us, depth).Some?
  }

  /** What is left once every reference was replaced, if that ends. */
  ghost function Expansion(table: Table, us: seq<Unit>): (r: Option<seq<string>>)
    ensures r.Some? <==> Finite(table, us)
  {
    if Finite(table, us) then
      var depth: nat :| Unfold(table, us, depth).Some?;
      Unfold(table, us, depth)
    else None
  }

  lemma {:induction false} UnfoldMonotone(table: Table, us: seq<Unit>, d: nat, e: nat)
    requires d <= e && Unfold(table, us, d).Some?
    ensures Unfold(table, us, e) == Unfold(table, us, d)
    decreases d, |us|
  {
    if us != [] {
      if us[0].Ref? {
        UnfoldMonotone(table, Value(table, us[0].name), d - 1, e - 1);
      }
      UnfoldMonotone(table, us[1..], d, e);
    }
  }

  /** The depth at which substitution ends does not matter. */
  lemma ExpansionIs(table: Table, us: seq<Unit>, depth: nat)
    requires Unfold(table, us, depth).Some?
    ensures Expansion(table, us) == Unfold(table, us, depth)
  {
    var d: nat :| Unfold(table, us, d).Some? && Expansion(table, us) == Unfold(table, us, d);
    if d <= depth {
      UnfoldMonotone(table, us, d, depth);
    } else {
      UnfoldMonotone(table, us, depth, d);
    }
  }

  lemma {:induction false} UnfoldOfConcat(table: Table, a: seq<Unit>, b: seq<Unit>, depth: nat)
    ensures Unfold(table, a + b, depth) == Both(Unfold(table, a, depth), Unfold(table, b, depth))
    decreases |a|
  {
    if a == [] {
      assert a + b == b;
      BothAssociative(Some([]), Some([]), Unfold(table, b, depth));
      assert Unfold(table, a, depth) == Some([]);
    } else {
      assert (a + b)[1..] == a[1..] + b;
      UnfoldOfConcat(table, a[1..], b, depth);
      BothAssociative(UnfoldOne(table, a[0], depth), Unfold(table, a[1..], depth), Unfold(table, b, depth));
    }
  }

  lemma UnfoldInContext(table: Table, a: seq<Unit>, x: seq<Unit>, b: seq<Unit>, depth: nat)
    ensures Unfold(table, a + x + b, depth) == Both(Both(Unfold(table, a, depth), Unfold(table, x, depth)), Unfold(table, b, depth))
  {
    UnfoldOfConcat(table, a, x, depth);
    UnfoldOfConcat(table, a + x, b, depth);
  }

  /** What surrounds a reference is substituted on its own. */
  lemma ExpansionInContext(table: Table, a: seq<Unit>, x: seq<Unit>, b: seq<Unit>)
    ensures Expansion(table, a + x + b) == Both(Both(Expansion(table, a), Expansion(table, x)), Expansion(table, b))
  {
    if Finite(table, a + x + b) {
      var d: nat :| Unfold(table, a + x + b, d).Some?;
      UnfoldInContext(table, a, x, b, d);
      ExpansionIs(table, a + x + b, d);
      ExpansionIs(table, a, d);
      ExpansionIs(table, x, d);
      ExpansionIs(table, b, d);
    } else if Finite(table, a) && Finite(table, x) && Finite(table, b) {
      var da: nat :| Unfold(table, a, da).Some?;
      var dx: nat :| Unfold(table, x, dx).Some?;
      var db: nat :| Unfold(table, b, db).Some?;
      var d := da + dx + db;
      UnfoldMonotone(table, a, da, d);
      UnfoldMonotone(table, x, dx, d);
      UnfoldMonotone(table, b, db, d);
      UnfoldInContext(table, a, x, b, d);
    }
  }

  /** The names of a list are substituted one after the other. */
  lemma ListInOrder(table: Table, a: seq<string>, b: seq<string>)
    requires ProperNames(a) && ProperNames(b) && a != [] && b != []
    ensures Expansion(table, Parse([FLAG, Join(a, ',') + "," + Join(b, ',')])) ==
            Both(Expansion(table, Parse([FLAG, Join(a, ',')])), Expansion(table, Parse([FLAG, Join(b, ',')])))
  {
    hide Parse, Join, Expansion, Unfold;
    JoinOfConcat(a, b, ',');
    ParseOfList(a);
    ParseOfList(b);
    ParseOfList(a + b);
    var us, vs := Parse([FLAG, Join(a, ',')]), Parse([FLAG, Join(b, ',')]);
    assert Parse([FLAG, Join(a + b, ',')]) == us + vs + [];
    ExpansionInContext(table, us, vs, []);
    ExpansionOfNothing(table);
    var both := Both(Expansion(table, us), Expansion(table, vs));
    assert both.Some? ==> both.value + [] == both.value;
  }

  lemma ExpansionOfNothing(table: Table)
    ensures Expansion(table, []) == Some([])
  {
    assert Unfold(table, [], 0) == Some([]);
    ExpansionIs(table, [], 0);
  }

  lemma UnfoldOfRef(table: Table, name: string, depth: nat)
    ensures Unfold(table, [Ref(name)], depth) == UnfoldOne(table, Ref(name), depth)
  {
    var us, one := [Ref(name)], UnfoldOne(table, Ref(name), depth);
    assert us[1..] == [];
    assert Unfold(table, us, depth) == Both(one, Some([]));
    if one.Some? {
      assert one.value + [] == one.value;
    }
  }

  lemma {:induction false} UnfoldOfPlain(table: Table, us: seq<Unit>, depth: nat)
    requires forall i | 0 <= i < |us| :: us[i].Plain?
    ensures Unfold(table, us, depth) == Some(Print(us))
    decreases |us|
  {
    if us != [] {
      UnfoldOfPlain(table, us[1..], depth);
    }
  }

  /** No flag is left. */
  lemma {:induction false} ExpansionIsFlat(table: Table, us: seq<Unit>, depth: nat)
    requires WellFormed(table) && AllClean(us) && Unfold(table, us, depth).Some?
    ensures FLAG !in Unfold(table, us, depth).value
    decreases depth, |us|
  {
    if us != [] {
      if us[0].Ref? {
        ValueIsClean(table, us[0].name);
        ExpansionIsFlat(table, Value(table, us[0].name), depth - 1);
      }
      ExpansionIsFlat(table, us[1..], depth);
    }
  }

  lemma ValueIsClean(table: Table, name: string)
    requires WellFormed(table) && Find(table, name).Some?
    ensures AllClean(Value(table, name))
  {
    var tokens := Tokenized(table[Find(table, name).value]);
    LengthOfPrint(tokens);
    ParseIsClean(tokens);
  }

  // ------------------------------------------------------------------ steps of substitution

  /** Replacing `x` by `y` loses no meaning, adds none, and is not a step backwards. */
  ghost predicate Reduces(table: Table, x: seq<Unit>, y: seq<Unit>) {
    && (forall d: nat :: Unfold(table, x, d).Some? ==> Unfold(table, y, d) == Unfold(table, x, d))
    && (Finite(table, y) ==> Finite(table, x))
  }

  lemma RefReduces(table: Table, name: string)
    requires Find(table, name).Some?
    ensures Reduces(table, [Ref(name)], Value(table, name))
  {
    forall d: nat | Unfold(table, [Ref(name)], d).Some?
      ensures Unfold(table, Value(table, name), d) == Unfold(table, [Ref(name)], d)
    {
      UnfoldOfRef(table, name, d);
      UnfoldMonotone(table, Value(table, name), d - 1, d);
    }
    if Finite(table, Value(table, name)) {
      var d: nat :| Unfold(table, Value(table, name), d).Some?;
      UnfoldOfRef(table, name, d + 1);
      assert Unfold(table, [Ref(name)], d + 1).Some?;
    }
  }

  lemma ReducesTransitive(table: Table, x: seq<Unit>, y: seq<Unit>, z: seq<Unit>)
    requires Reduces(table, x, y) && Reduces(table, y, z)
    ensures Reduces(table, x, z)
  {
  }

  lemma ReducesInContext(table: Table, a: seq<Unit>, x: seq<Unit>, y: seq<Unit>, b: seq<Unit>)
    requires Reduces(table, x, y)
    ensures Reduces(table, a + x + b, a + y + b)
  {
    forall d: nat | Unfold(table, a + x + b, d).Some? ensures Unfold(table, a + y + b, d) == Unfold(table, a + x + b, d) {
      UnfoldInContext(table, a, x, b, d);
      UnfoldInContext(table, a, y, b, d);
    }
    ExpansionInContext(table, a, x, b);
    ExpansionInContext(table, a, y, b);
  }

  lemma ReducesExpansion(table: Table, x: seq<Unit>, y: seq<Unit>)
    requires Reduces(table, x, y)
    ensures Expansion(table, x) == Expansion(table, y)
  {
    if Finite(table, x) {
      var d: nat :| Unfold(table, x, d).Some?;
      ExpansionIs(table, x, d);
      ExpansionIs(table, y, d);
    }
  }

  // ------------------------------------------------------------------ loops

  /** `us` came up while every alias of `history` was being substituted: it ends sooner than
      they do. */
  ghost predicate Within(table: Table, history: seq<string>, us: seq<Unit>) {
    forall h, d: nat | h in history && Unfold(table, [Ref(h)], d).Some? :: d > 0 && Unfold(table, us, d - 1).Some?
  }

  lemma WithinReduced(table: Table, history: seq<string>, x: seq<Unit>, y: seq<Unit>)
    requires Within(table, history, x) && Reduces(table, x, y)
    ensures Within(table, history, y)
  {
  }

  lemma WithinPart(table: Table, history: seq<string>, a: seq<Unit>, x: seq<Unit>, b: seq<Unit>)
    requires Within(table, history, a + x + b)
    ensures Within(table, history, x)
  {
    forall h, d: nat | h in history && Unfold(table, [Ref(h)], d).Some? ensures d > 0 && Unfold(table, x, d - 1).Some? {
      UnfoldInContext(table, a, x, b, d - 1);
    }
  }

  lemma WithinValue(table: Table, history: seq<string>, name: string)
    requires Within(table, history, [Ref(name)]) && Find(table, name).Some?
    ensures Within(table, history + [name], Value(table, name))
  {
    forall h, d: nat | h in history + [name] && Unfold(table, [Ref(h)], d).Some?
      ensures d > 0 && Unfold(table, Value(table, name), d - 1).Some?
    {
      if h in history {
        UnfoldOfRef(table, name, d - 1);
        UnfoldMonotone(table, Value(table, name), d - 2, d - 1);
      } else {
        UnfoldOfRef(table, name, d);
      }
    }
  }

  /** An alias that comes up while it is being substituted has no expansion. */
  lemma {:induction false} LoopIsInfinite(table: Table, history: seq<string>, name: string, depth: nat)
    requires Within(table, history, [Ref(name)]) && name in history
    ensures Unfold(table, [Ref(name)], depth).None?
  {
    if Unfold(table, [Ref(name)], depth).Some? {
      LoopIsInfinite(table, history, name, depth - 1);
    }
  }

  // ------------------------------------------------------------------ the number of substitutions

  function Cost(table: Table, us: seq<Unit>, depth: nat): nat
    decreases depth, |us|
  {
    if us == [] then 0 else CostOne(table, us[0], depth) + Cost(table, us[1..], depth)
  }

  function CostOne(table: Table, u: Unit, depth: nat): nat
    decreases depth, 0
  {
    if u.Plain? || depth == 0 || Find(table, u.name).None? then 0 else 1 + Cost(table, Value(table, u.name), depth - 1)
  }

  lemma {:induction false} CostStable(table: Table, us: seq<Unit>, d: nat, e: nat)
    requires d <= e && Unfold(table, us, d).Some?
    ensures Cost(table, us, e) == Cost(table, us, d)
    decreases d, |us|
  {
    if us != [] {
      if us[0].Ref? {
        CostStable(table, Value(table, us[0].name), d - 1, e - 1);
      }
      CostStable(table, us[1..], d, e);
    }
  }

  lemma {:induction false} CostOfConcat(table: Table, a: seq<Unit>, b: seq<Unit>, depth: nat)
    ensures Cost(table, a + b, depth) == Cost(table, a, depth) + Cost(table, b, depth)
    decreases |a|
  {
    if a == [] {
      assert a + b == b;
    } else {
      assert (a + b)[1..] == a[1..] + b;
      CostOfConcat(table, a[1..], b, depth);
    }
  }

  /** How many references are replaced before substitution ends. */
  ghost function Total(table: Table, us: seq<Unit>): nat {
    if Finite(table, us) then
      var depth: nat :| Unfold(table, us, depth).Some?;
      Cost(table, us, depth)
    else 0
  }

  lemma TotalIs(table: Table, us: seq<Unit>, depth: nat)
    requires Unfold(table, us, depth).Some?
    ensures Total(table, us) == Cost(table, us, depth)
  {
    var d: nat :| Unfold(table, us, d).Some? && Total(table, us) == Cost(table, us, d);
    if d <= depth {
      CostStable(table, us, d, depth);
    } else {
      CostStable(table, us, depth, d);
    }
  }

  lemma TotalInContext(table: Table, a: seq<Unit>, x: seq<Unit>, b: seq<Unit>)
    requires Finite(table, a + x + b)
    ensures Finite(table, x) && Total(table, a + x + b) == Total(table, a) + Total(table, x) + Total(table, b)
  {
    var d: nat :| Unfold(table, a + x + b, d).Some?;
    UnfoldInContext(table, a, x, b, d);
    CostOfConcat(table, a, x, d);
    CostOfConcat(table, a + x, b, d);
    TotalIs(table, a + x + b, d);
    TotalIs(table, a, d);
    TotalIs(table, x, d);
    TotalIs(table, b, d);
  }

  lemma TotalOfRef(table: Table, name: string)
    requires Finite(table, [Ref(name)])
    ensures Find(table, name).Some? && Total(table, [Ref(name)]) == 1 + Total(table, Value(table, name))
  {
    var d: nat :| Unfold(table, [Ref(name)], d).Some?;
    UnfoldOfRef(table, name, d);
    TotalIs(table, [Ref(name)], d);
    TotalIs(table, Value(table, name), d - 1);
    assert Cost(table, [Ref(name)], d) == CostOne(table, Ref(name), d) + Cost(table, [Ref(name)][1..], d);
  }
}
