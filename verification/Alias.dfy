/** Alias resolution on a command line: references are replaced in place, within a range of the
    command line that moves with what was replaced, and a history stops loops.
 */
module Alias {
  import opened Wrappers
  import opened Tokens
  import opened Substitution
  import opened Chains

  /** One flag before each name of a list. */
  method CutNames(list: string) returns (argv: seq<string>)
    ensures argv == Print(Refs(Pieces(list, ',')))
  {
    var names := Strtok(list, ',');
    argv := [];
    var j := 0;
    while j < |names|
      invariant j <= |names| && argv + Print(Refs(names[j..])) == Print(Refs(names))
    {
      assert Refs(names[j..])[1..] == Refs(names[j + 1..]);
      argv := argv + [FLAG, names[j]];
      j := j + 1;
    }
  }

  /** Where the units of a line come from. */
  lemma ParseSteps(args: seq<string>, i: nat)
    requires i < |args|
    ensures args[i] == FLAG && i + 1 < |args| ==>
              Print(Parse(args[i..])) == Print(Refs(Pieces(args[i + 1], ','))) + Print(Parse(args[i + 2..]))
    ensures !(args[i] == FLAG && i + 1 < |args|) ==> Print(Parse(args[i..])) == [args[i]] + Print(Parse(args[i + 1..]))
  {
    if args[i] == FLAG && i + 1 < |args| {
      assert args[i..][2..] == args[i + 2..];
      PrintOfConcat(Refs(Pieces(args[i + 1], ',')), Parse(args[i + 2..]));
    } else {
      assert args[i..][1..] == args[i + 1..];
      assert Parse(args[i..])[1..] == Parse(args[i + 1..]);
    }
  }

  /** Cuts the lists of names of a command line. */
  method ProcessArgs(args: seq<string>) returns (argv: seq<string>)
    ensures argv == Print(Parse(args))
  {
    hide Parse, Print, Pieces;
    argv := [];
    var i := 0;
    while i < |args|
      invariant i <= |args| && argv + Print(Parse(args[i..])) == Print(Parse(args))
    {
      ParseSteps(args, i);
      if args[i] == FLAG && i + 1 < |args| {
        var names := CutNames(args[i + 1]);
        assert argv + names + Print(Parse(args[i + 2..])) == argv + (names + Print(Parse(args[i + 2..])));
        argv := argv + names;
        i := i + 2;
      } else {
        assert argv + [args[i]] + Print(Parse(args[i + 1..])) == argv + ([args[i]] + Print(Parse(args[i + 1..])));
        argv := argv + [args[i]];
        i := i + 1;
      }
    }
    NothingLeft(args);
    assert argv + [] == argv;
  }

  lemma NothingLeft(args: seq<string>)
    ensures Print(Parse(args[|args|..])) == []
  {
  }

  lemma {:induction false} NoFlagKept(args: seq<string>)
    requires FLAG !in args
    ensures !Dangling(args) && Print(Parse(args)) == args && |Parse(args)| == |args|
    ensures forall i | 0 <= i < |args| :: Parse(args)[i].Plain?
  {
    if args != [] {
      NoFlagKept(args[1..]);
      assert Parse(args)[1..] == Parse(args[1..]);
    }
  }

  function RefCount(us: seq<Unit>): nat {
    if us == [] then 0 else (if us[0].Ref? then 1 else 0) + RefCount(us[1..])
  }

  lemma {:induction false} RefCountOfConcat(a: seq<Unit>, b: seq<Unit>)
    ensures RefCount(a + b) == RefCount(a) + RefCount(b)
  {
    if a == [] {
      assert a + b == b;
    } else {
      assert (a + b)[1..] == a[1..] + b;
      RefCountOfConcat(a[1..], b);
    }
  }

  lemma {:induction false} PlainHasNoRef(us: seq<Unit>)
    requires forall i | 0 <= i < |us| :: us[i].Plain?
    ensures RefCount(us) == 0
  {
    if us != [] {
      PlainHasNoRef(us[1..]);
    }
  }

  // ------------------------------------------------------------------ one replacement

  /** A printed line around its first flag. */
  lemma AroundFlag(pre: seq<string>, us: seq<Unit>, suffix: seq<Unit>, k: nat)
    requires AllClean(us) && FLAG !in pre && k < |Print(us)| && Print(us)[k] == FLAG && FLAG !in Print(us)[..k]
    ensures k < |us| && us[k].Ref? && us == us[..k] + [us[k]] + us[k + 1..]
    ensures var argv := pre + Print(us) + Print(suffix);
            && argv[..|pre| + k] == pre + Print(us[..k]) && FLAG !in argv[..|pre| + k]
            && argv[|pre| + k..] == Print([us[k]] + (us[k + 1..] + suffix))
            && |pre| + k + 1 < |argv| && argv[|pre| + k + 1] == us[k].name
  {
    hide Print;
    FirstFlag(us, k);
    assert us == us[..k] + [us[k]] + us[k + 1..];
    var a, x, b := us[..k], [us[k]], us[k + 1..];
    PrintOfConcat(a, x);
    PrintOfConcat(a + x, b);
    PrintOfConcat(x, b + suffix);
    PrintOfConcat(b, suffix);
    PrintOfRef(us[k]);
    assert Print(us) == Print(a) + Print(x) + Print(b);
    assert pre + Print(us) + Print(suffix) == (pre + Print(a)) + (Print(x) + (Print(b) + Print(suffix)));
  }

  lemma PrintOfRef(u: Unit)
    ensures Print([u]) == PrintOne(u)
  {
    assert [u][1..] == [];
    assert Print([u][1..]) == [];
    assert Print([u]) == PrintOne(u) + [];
  }

  lemma Replaced(pre: seq<string>, a: seq<Unit>, u: Unit, b: seq<Unit>, suffix: seq<Unit>, x: seq<Unit>)
    requires u.Ref?
    ensures pre + Print(a) + Print(x) + Print(b + suffix) == pre + Print(a + x + b) + Print(suffix)
    ensures |Print(a + x + b)| == |Print(a + [u] + b)| - 2 + |Print(x)|
  {
    hide Print;
    PrintOfConcat(a, x);
    PrintOfConcat(a + x, b);
    PrintOfConcat(a, [u]);
    PrintOfConcat(a + [u], b);
    PrintOfConcat(b, suffix);
    PrintOfRef(u);
  }

  /** The line right after the value of an alias was put in its place. */
  lemma ValueInPlace(table: Table, name: string, pre: seq<string>, suffix: seq<Unit>)
    requires WellFormed(table) && Find(table, name).Some? && FLAG !in pre && AllClean(suffix)
    ensures var tokens := Tokenized(table[Find(table, name).value]);
            && Print(Parse(pre + tokens + Print(suffix))) == pre + Print(Value(table, name)) + Print(suffix)
            && |tokens| <= |Print(Value(table, name))|
            && (SingleNames(table) ==> |tokens| == |Print(Value(table, name))|)
  {
    hide Parse, Print, Pieces, WellSeparated;
    var tokens := Tokenized(table[Find(table, name).value]);
    LengthOfPrint(tokens);
    NoFlagKept(pre);
    ParseOfPrint(suffix);
    ParseOfConcat(pre, tokens + Print(suffix));
    ParseOfConcat(tokens, Print(suffix));
    assert pre + tokens + Print(suffix) == pre + (tokens + Print(suffix));
    PrintOfConcat(Parse(pre), Parse(tokens) + suffix);
    PrintOfConcat(Parse(tokens), suffix);
  }

  // ------------------------------------------------------------------ what a replacement keeps

  /** `us` is a later form of `start`, which came up while `history` was being resolved. */
  ghost predicate Resolving(table: Table, start: seq<Unit>, history: seq<string>, us: seq<Unit>) {
    AllClean(us) && Reduces(table, start, us) && Within(table, history, us)
  }

  lemma ResolvingStarts(table: Table, name: string, history: seq<string>)
    requires WellFormed(table) && Find(table, name).Some? && Within(table, history, [Ref(name)])
    ensures Resolving(table, [Ref(name)], history + [name], Value(table, name))
    ensures Finite(table, [Ref(name)]) ==> Total(table, Value(table, name)) < Total(table, [Ref(name)])
  {
    ValueIsClean(table, name);
    RefReduces(table, name);
    WithinValue(table, history, name);
    if Finite(table, [Ref(name)]) {
      TotalOfRef(table, name);
    }
  }

  lemma FiniteStays(table: Table, x: seq<Unit>, y: seq<Unit>)
    requires Reduces(table, x, y)
    ensures Finite(table, x) <==> Finite(table, y)
  {
    ReducesExpansion(table, x, y);
  }

  /** A reference within, and what follows from it. */
  lemma ResolvingPart(table: Table, start: seq<Unit>, history: seq<string>, a: seq<Unit>, u: Unit, b: seq<Unit>)
    requires Resolving(table, start, history, a + [u] + b)
    ensures Within(table, history, [u])
    ensures Finite(table, start) ==> Finite(table, [u]) && Total(table, [u]) <= Total(table, a + [u] + b)
  {
    WithinPart(table, history, a, [u], b);
    FiniteStays(table, start, a + [u] + b);
    if Finite(table, start) {
      TotalInContext(table, a, [u], b);
    }
  }

  /** A reference within is replaced by a later form of it. */
  lemma ResolvingContinues(
    table: Table, start: seq<Unit>, history: seq<string>, a: seq<Unit>, u: Unit, b: seq<Unit>, x: seq<Unit>)
    requires Resolving(table, start, history, a + [u] + b) && Resolving(table, [u], history, x)
    requires Finite(table, [u]) ==> Total(table, x) < Total(table, [u])
    ensures Resolving(table, start, history, a + x + b)
    ensures Finite(table, start) ==> Total(table, a + x + b) < Total(table, a + [u] + b)
  {
    hide Total, Within;
    var us, us' := a + [u] + b, a + x + b;
    ReducesInContext(table, a, [u], x, b);
    ReducesTransitive(table, start, us, us');
    WithinReduced(table, history, us, us');
    forall i | 0 <= i < |us'| ensures Clean(us'[i]) {
      if |a| + |x| <= i {
        assert us'[i] == us[i - |x| + 1];
      } else if i < |a| {
        assert us'[i] == us[i];
      }
    }
    if Finite(table, start) {
      FiniteStays(table, start, us);
      FiniteStays(table, start, us');
      TotalInContext(table, a, [u], b);
      TotalInContext(table, a, x, b);
    }
  }

  lemma ResolvingForgets(table: Table, start: seq<Unit>, history: seq<string>, name: string, us: seq<Unit>)
    requires Resolving(table, start, history + [name], us)
    ensures Resolving(table, start, history, us)
  {
    assert forall h | h in history :: h in history + [name];
  }

  lemma CleanOf(table: Table, start: seq<Unit>, history: seq<string>, us: seq<Unit>)
    requires Resolving(table, start, history, us)
    ensures AllClean(us)
  {
  }

  lemma UnknownIsInfinite(table: Table, name: string)
    requires Find(table, name).None?
    ensures !Finite(table, [Ref(name)])
  {
    forall d: nat ensures Unfold(table, [Ref(name)], d).None? {
      UnfoldOfRef(table, name, d);
    }
  }

  lemma LoopHasNoEnd(table: Table, history: seq<string>, name: string)
    requires Within(table, history, [Ref(name)]) && name in history
    ensures !Finite(table, [Ref(name)])
  {
    forall d: nat ensures Unfold(table, [Ref(name)], d).None? {
      LoopIsInfinite(table, history, name, d);
    }
  }

  lemma PlainRemains(us: seq<Unit>, a: seq<Unit>, u: Unit, b: seq<Unit>, x: seq<Unit>)
    requires us == a + [u] + b && u.Ref? && AllClean(x) && FLAG !in Print(x)
    ensures RefCount(a + x + b) < RefCount(us)
  {
    NoFlagIsPlain(x);
    PlainHasNoRef(x);
    RefCountOfConcat(a, x);
    RefCountOfConcat(a + x, b);
    RefCountOfConcat(a, [u]);
    RefCountOfConcat(a + [u], b);
    assert [u][1..] == [] && RefCount([u]) == 1 + RefCount([u][1..]);
  }

  function UpTo(line: seq<string>, n: int): seq<string>
    requires n <= |line|
  {
    if n <= 0 then [] else line[..n]
  }

  class Resolver {
    const table: Table
    var argv: seq<string>
    var history: seq<string> // oldest first
    ghost const line: seq<Unit> // the command line as it was given

    ghost predicate Valid()
      reads this
    {
      && WellFormed(table) && ChainsFit(table, line) && (SingleNames(table) || Finite(table, line))
      && Distinct(history) && forall h | h in history :: h in Keys(table)
    }

    constructor (table: Table, args: seq<string>, ghost line: seq<Unit>)
      requires WellFormed(table) && ChainsFit(table, line) && (SingleNames(table) || Finite(table, line))
      ensures Valid() && this.table == table && this.line == line && argv == args && history == []
    {
      this.table := table;
      this.line := line;
      argv := args;
      history := [];
    }

    /** The first flag in a range. */
    method NextFlag(from: nat, to: int) returns (i: Option<nat>)
      requires from <= |argv| && to <= |argv|
      ensures i.None? && from <= to ==> FLAG !in argv[from..to]
      ensures i.Some? ==> from <= i.value < to && argv[i.value] == FLAG && FLAG !in argv[from..i.value]
    {
      var k := from;
      while k < to
        invariant from <= k && (k <= to || k == from) && FLAG !in argv[from..k]
      {
        if argv[k] == FLAG {
          return Some(k);
        }
        k := k + 1;
      }
      return None;
    }

    method Lookup(name: string) returns (index: Option<nat>)
      ensures index == Find(table, name)
    {
      for j := 0 to |table|
        invariant FindFrom(table, name, j) == Find(table, name)
      {
        if table[j].key == name {
          return Some(j);
        }
      }
      return None;
    }

    /** Remembers an alias. The stack has a fixed size; a failure would go unnoticed. */
    method Remember(name: string)
      requires Valid() && name !in history && Find(table, name).Some? && Bounded(table, line, history, name)
      modifies this`history
      ensures Valid() && history == old(history) + [name]
    {
      hide Bounded, ChainsFit, Finite, SingleNames, WellFormed, Weight;
      BoundedFits(table, line, history, name);
      assert Keys(table)[Find(table, name).value] == name;
      if |name| + 1 <= HISTORY_SIZE - Weight(history) {
        history := history + [name];
      }
    }

    /** Replaces the reference at `at` by the value of its alias, and then the references within
        a range that starts as long as the value. It gives up on an unknown alias and on a loop. */
    method AliasResolution(index: nat, at: nat, ghost suffix: seq<Unit>)
      returns (ok: bool, modified: int, ghost us: seq<Unit>)
      requires Valid() && index < |table| && Find(table, table[index].key) == Some(index)
      requires at <= |argv| && FLAG !in argv[..at] && AllClean(suffix)
      requires argv[at..] == Print([Ref(table[index].key)] + suffix)
      requires Within(table, history, [Ref(table[index].key)]) && Bounded(table, line, history, table[index].key)
      requires SingleNames(table) || Finite(table, [Ref(table[index].key)])
      modifies this
      ensures !ok ==> !Finite(table, [Ref(table[index].key)])
      ensures ok ==> Valid() && history == old(history) && argv == old(argv[..at]) + Print(us) + Print(suffix)
      ensures ok ==> Resolving(table, [Ref(table[index].key)], history, us) && AllBounded(table, line, history, us)
      ensures ok && Finite(table, [Ref(table[index].key)]) ==> Total(table, us) < Total(table, [Ref(table[index].key)])
      ensures ok ==> modified + 2 <= |Print(us)| && FLAG !in UpTo(Print(us), modified + 2)
      ensures ok && SingleNames(table) ==> modified + 2 == |Print(us)|
      decreases if SingleNames(table) then |table| - |history| else Total(table, [Ref(table[index].key)]), 0
    {
      hide Total, Finite, Within, Resolving, Find, Parse, Print, Unfold, Pieces, RefCount, Distinct, Bounded, AllBounded, ChainsFit;
      var name := table[index].key;
      ghost var pre, before := argv[..at], history;
      us := [];
      if name in history {
        LoopHasNoEnd(table, history, name);
        return false, 0, us;
      }
      assert Keys(table)[index] == name;
      Remember(name);
      HistoryFits(history, Keys(table));
      PrintOfConcat([Ref(name)], suffix);
      PrintOfRef(Ref(name));
      var count := CountValues(table[index].value, ' ');
      var tokens := Strtok(table[index].value, ' ');
      var temp := argv[..at] + tokens + argv[at + 2..];
      assert |temp| == |argv| - 2 + count.value; // what was allocated
      var range := |tokens|;
      assert argv[at + 2..] == argv[at..][2..] == Print(suffix);
      argv := ProcessArgs(temp);
      ValueInPlace(table, name, pre, suffix);
      us := Value(table, name);
      ResolvingStarts(table, name, before);
      ValueBounded(table, line, before, name);
      ghost var bound := Total(table, us);
      var found := true;
      while found
        invariant Valid() && history == before + [name] && argv == pre + Print(us) + Print(suffix)
        invariant range <= |Print(us)| && Resolving(table, [Ref(name)], history, us) && AllBounded(table, line, history, us)
        invariant Finite(table, [Ref(name)]) ==> Total(table, us) <= bound
        invariant SingleNames(table) ==> range == |Print(us)|
        invariant !found ==> FLAG !in UpTo(Print(us), range)
        decreases found, if SingleNames(table) then RefCount(us) else Total(table, us)
      {
        assert argv[..at] == pre;
        ok, found, range, us := Round(at, range, [Ref(name)], us, suffix, bound);
        if !ok {
          return false, 0, us;
        }
      }
      ResolvingForgets(table, [Ref(name)], before, name, us);
      if SingleNames(table) {
        assert UpTo(Print(us), range) == Print(us);
        CleanOf(table, [Ref(name)], before, us);
        NoFlagIsPlain(us);
      }
      ForgottenBounded(table, line, before, name, us);
      history := history[..|history| - 1];
      assert history == before;
      return true, range - 2, us;
    }

    /** Looks for a flag in the range from `at` on and resolves the first one. */
    method Round(at: nat, range: int, ghost start: seq<Unit>, ghost us: seq<Unit>, ghost suffix: seq<Unit>, ghost bound: nat)
      returns (ok: bool, found: bool, range': int, ghost us': seq<Unit>)
      requires Valid() && AllClean(suffix) && Resolving(table, start, history, us) && AllBounded(table, line, history, us)
      requires at <= |argv| && argv == argv[..at] + Print(us) + Print(suffix) && FLAG !in argv[..at]
      requires range <= |Print(us)| && (SingleNames(table) ==> range == |Print(us)|)
      requires SingleNames(table) || Finite(table, start)
      requires Finite(table, start) ==> Total(table, us) <= bound
      modifies this
      ensures !ok ==> !Finite(table, start)
      ensures ok ==> Valid() && history == old(history) && argv == old(argv[..at]) + Print(us') + Print(suffix)
      ensures ok ==> Resolving(table, start, history, us') && AllBounded(table, line, history, us')
      ensures ok ==> range' <= |Print(us')| && (SingleNames(table) ==> range' == |Print(us')|)
      ensures ok && found && SingleNames(table) ==> RefCount(us') < RefCount(us)
      ensures ok && found && Finite(table, start) ==> Total(table, us') < Total(table, us)
      ensures ok && !found ==> us' == us && range' == range && FLAG !in UpTo(Print(us), range)
      decreases if SingleNames(table) then |table| - |history| else bound, 1
    {
      hide Total, Finite, Within, Resolving, Parse, Print, Unfold, Pieces, RefCount, Tokenized, WellFormed, SingleNames, Bounded, ChainsFit;
      ghost var pre, printed := argv[..at], Print(us);
      us', range' := us, range;
      var i := NextFlag(at, at + range);
      if i.None? {
        assert range > 0 ==> argv[at..at + range] == printed[..range];
        return true, false, range', us';
      }
      ghost var k := i.value - at;
      assert argv[at..i.value] == printed[..k];
      assert argv[i.value] == printed[k];
      CleanOf(table, start, history, us);
      AroundFlag(pre, us, suffix, k);
      ghost var a, u, b := us[..k], us[k], us[k + 1..];
      ResolvingPart(table, start, history, a, u, b);
      var name := argv[i.value + 1];
      var index := Lookup(name);
      if index.None? {
        UnknownIsInfinite(table, name);
        return false, false, range', us';
      }
      HistoryFits(history, Keys(table));
      var modified;
      ghost var x;
      ok, modified, x := AliasResolution(index.value, i.value, b + suffix);
      if !ok {
        return false, false, range', us';
      }
      CleanOf(table, [u], history, x);
      Replaced(pre, a, u, b, suffix, x);
      ResolvingContinues(table, start, history, a, u, b, x);
      ReplacedBounded(table, line, history, a, u, b, x);
      if SingleNames(table) {
        assert UpTo(Print(x), modified + 2) == Print(x);
        PlainRemains(us, a, u, b, x);
      }
      us' := a + x + b;
      return true, true, range + modified, us';
    }
  }

  /** Without aliases the command line stays as it is. Otherwise the result is the full
      substitution of every reference, and there is none exactly when substitution has no end or
      meets an unknown alias. */
  method ApplyAliases(table: Table, args: seq<string>) returns (argv: Option<seq<string>>)
    requires table != [] ==> WellFormed(table) && ChainsFit(table, Parse(args)) && !Dangling(args)
    requires table != [] ==> SingleNames(table) || Finite(table, Parse(args))
    ensures table == [] ==> argv == Some(args)
    ensures table != [] ==> argv == Expansion(table, Parse(args))
    ensures table != [] && argv.Some? ==> FLAG !in argv.value
  {
    hide Total, Finite, Within, Resolving, Parse, Print, Unfold, RefCount, WellFormed, SingleNames, AllBounded, ChainsFit;
    if table == [] {
      return Some(args);
    }
    ghost var start := Parse(args);
    ghost var us := start;
    TopStarts(table, args);
    var processed := ProcessArgs(args);
    var r := new Resolver(table, processed, start);
    LineBounded(table, start);
    PrintOfNothing();
    var found := true;
    while found
      invariant r.Valid() && r.table == table && r.line == start && r.history == [] && r.argv == Print(us)
      invariant Resolving(table, start, [], us) && AllBounded(table, start, [], us)
      invariant !found ==> FLAG !in Print(us)
      decreases found, if SingleNames(table) then RefCount(us) else Total(table, us)
    {
      assert r.argv == r.argv[..0] + Print(us) + Print([]);
      var ok, range;
      ghost var us';
      ok, found, range, us' := r.Round(0, |r.argv|, start, us, [], Total(table, us));
      assert UpTo(Print(us), |Print(us)|) == Print(us);
      us := us';
      if !ok {
        return None;
      }
    }
    TopEnds(table, start, us);
    return Some(r.argv);
  }

  lemma PrintOfNothing()
    ensures Print([]) == []
  {
  }

  lemma TopStarts(table: Table, args: seq<string>)
    requires !Dangling(args)
    ensures Resolving(table, Parse(args), [], Parse(args))
  {
    ParseIsClean(args);
  }

  lemma TopEnds(table: Table, start: seq<Unit>, us: seq<Unit>)
    requires Resolving(table, start, [], us) && FLAG !in Print(us)
    ensures Expansion(table, start) == Some(Print(us))
  {
    NoFlagIsPlain(us);
    UnfoldOfPlain(table, us, 0);
    ExpansionIs(table, us, 0);
    ReducesExpansion(table, start, us);
  }

  /** A reference stands for the substitution of its value; what is around it is not touched. */
  lemma ReferenceIsItsValue(table: Table, a: seq<string>, name: string, b: seq<string>)
    requires FLAG !in a && FLAG !in b && name != "" && ',' !in name && Find(table, name).Some?
    ensures Expansion(table, Parse(a + [FLAG, name] + b)) == Both(Both(Some(a), Expansion(table, Value(table, name))), Some(b))
  {
    hide Parse, Print, Unfold, Pieces, Find, Value, Expansion, Dangling;
    NoFlagKept(a);
    NoFlagKept(b);
    ParseOfPrint([Ref(name)]);
    PrintOfRef(Ref(name));
    ParseOfConcat([FLAG, name], b);
    ParseOfConcat(a, [FLAG, name] + b);
    assert a + [FLAG, name] + b == a + ([FLAG, name] + b);
    assert Parse(a) + ([Ref(name)] + Parse(b)) == Parse(a) + [Ref(name)] + Parse(b);
    ExpansionInContext(table, Parse(a), [Ref(name)], Parse(b));
    RefReduces(table, name);
    ReducesExpansion(table, [Ref(name)], Value(table, name));
    UnfoldOfPlain(table, Parse(a), 0);
    UnfoldOfPlain(table, Parse(b), 0);
    ExpansionIs(table, Parse(a), 0);
    ExpansionIs(table, Parse(b), 0);
  }
}
