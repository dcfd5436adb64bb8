/** A tree of which a traversal always loses something: 512 directories with ids of 32 bytes, which
    fill the id ring exactly, and below them 497 with ids of 33 bytes, which do not fit at once.
    Each of these holds one file.
 */
module BranchDeep {
  import opened Wrappers
  import opened Forest
  import Memory
  import opened MultiRing
  import opened BranchSearch
  import opened BranchLinks
  import opened BranchRuns
  import opened BranchFull
  import Branch

  // ------------------------------------------------------------------ the tree

  /** The `n`-th id of `size` bytes. */
  function IdOf(size: nat, n: nat): (id: Id)
    requires 2 <= size && n < 65536
    ensures |id| == size && Number(id) == n
  {
    [(n / 256) as byte, (n % 256) as byte] + seq(size - 2, _ => 0)
  }

  function Number(x: Id): (n: nat)
    requires 2 <= |x|
    ensures n < 65536
  {
    x[0] as nat * 256 + x[1] as nat
  }

  function Row(size: nat, count: nat): (ids: seq<Id>)
    requires 2 <= size && count < 65536
    ensures |ids| == count && forall i | 0 <= i < count :: ids[i] == IdOf(size, i)
  {
    seq(count, i requires 0 <= i < count => IdOf(size, i))
  }

  const Root: Id := IdOf(32, 0)
  const Upper: seq<Id> := Row(32, 512)
  const Lower: seq<Id> := Row(33, 497)
  const Files: seq<Id> := Row(34, 497)

  /** The upper directories lie in the first of them, the lower ones in the second, and each file
      in a lower directory. */
  function ParentOf(x: Id): Id
    requires 2 <= |x|
  {
    if x == Root then [] else if |x| == 32 then Root else if |x| == 33 then IdOf(32, 1) else IdOf(33, Number(x))
  }

  function Tree(): Entries {
    map x | x in Upper + Lower + Files :: Entry(ParentOf(x), "entry", |x| < 34)
  }

  function FileSet(): set<Id> {
    set x | x in Files
  }

  ghost function Depths(): map<Id, nat> {
    map x | x in Upper + Lower + Files :: if x == Root then 0 else |x| - 31
  }

  ghost function Deep(): Query {
    Query(Tree(), Depths(), Root, FileSet())
  }

  lemma InRow(size: nat, count: nat, x: Id)
    requires 2 <= size && count < 65536 && x in Row(size, count)
    ensures |x| == size && Number(x) < count && x == IdOf(size, Number(x))
  {
  }

  lemma RowDistinct(size: nat, count: nat)
    requires 2 <= size && count < 65536
    ensures Distinct(Row(size, count))
  {
    hide IdOf;
  }

  /** All that is used of the tree. */
  lemma TreeFacts(x: Id)
    requires x in Tree()
    ensures if |x| == 32 then x in Upper && (x == Root || Tree()[x].parent == Root)
            else if |x| == 33 then x in Lower && Tree()[x].parent == IdOf(32, 1) && IdOf(32, 1) in Upper
            else |x| == 34 && x in Files && Tree()[x].parent in Lower
    ensures Tree()[x].dir <==> |x| < 34
    ensures Root in Upper && Tree()[Root].parent == []
  {
    hide IdOf;
    assert Upper[0] == Root && Upper[1] == IdOf(32, 1);
    if x in Upper {
      InRow(32, 512, x);
    } else if x in Lower {
      InRow(33, 497, x);
    } else {
      InRow(34, 497, x);
      assert Lower[Number(x)] == IdOf(33, Number(x));
    }
  }

  lemma DeepAnswerable()
    ensures Answerable(Deep())
  {
    hide IdOf, Row, ParentOf, Number;
    forall x | x in Tree() ensures true {
      TreeFacts(x);
    }
    TreeFacts(Root);
    forall x | HasParent(Tree(), x) ensures Depths()[Tree()[x].parent] < Depths()[x] && Tree()[Tree()[x].parent].dir {
      TreeFacts(x);
      TreeFacts(Tree()[x].parent);
    }
  }

  lemma {:induction false} ConcatLength(dirs: seq<Id>, k: nat)
    requires forall x :: x in dirs ==> |x| == k
    ensures |Concat(dirs)| == |dirs| * k
  {
    if dirs != [] {
      var n := |dirs| - 1;
      assert dirs[n] in dirs;
      ConcatLength(dirs[..n], k);
      OneMore(n, k);
    }
  }

  lemma OneMore(n: nat, k: nat)
    ensures (n + 1) * k == n * k + k
  {
  }

  /** As many upper directories as there are, if they are all. */
  lemma UpperCount(dirs: seq<Id>)
    requires Distinct(dirs) && forall x :: x in dirs ==> x in Upper
    ensures (forall x :: x in dirs ==> |x| == 32) && |dirs| <= 512
    ensures (forall x :: x in Upper ==> x in dirs) ==> |dirs| == 512
  {
    hide IdOf, Row, Number, Concat;
    forall x | x in Upper ensures |x| == 32 {
      InRow(32, 512, x);
    }
    RowDistinct(32, 512);
    ConcatLength(dirs, 32);
    ConcatLength(Upper, 32);
    ConcatWithin(dirs, Upper);
    if forall x :: x in Upper ==> x in dirs {
      ConcatWithin(Upper, dirs);
    }
  }

  // ------------------------------------------------------------------ what is known when

  /** The root is recorded first, and nothing but it was searched. */
  ghost predicate Shallow(s: State) {
    |s.counts| == 2 && s.counts[0] <= 1 && s.counts[0] <= |s.recorded| && (s.recorded != [] ==> s.recorded[0] == Root)
  }

  /** All the upper directories were searched. */
  ghost predicate Searched(s: State) {
    |s.counts| == 2 && s.counts[0] <= |s.recorded| && forall x :: x in Upper ==> x in s.recorded[..s.counts[0]]
  }

  lemma ShallowReached(s: State, x: Id)
    requires Searching(Deep(), s) && Shallow(s) && x in s.Known()
    ensures x in Upper && (s.counts[0] == 0 ==> x == Root)
  {
    hide Searching, IdOf, Row, Number, ParentOf, Tree;
    TreeFacts(Root);
    ReachedIs(s, x);
    TreeFacts(x);
    RootAlone();
    if x != Root {
      var p := Tree()[x].parent;
      assert s.counts[0] == 1 && p in s.recorded[..1];
      assert s.recorded[..1] == [s.recorded[0]];
    }
  }

  lemma RootAlone()
    ensures Root != IdOf(32, 1) && Root !in Lower
  {
    hide IdOf, Row;
    if Root in Lower {
      InRow(33, 497, Root);
    }
    assert Number(IdOf(32, 1)) == 1 && Number(Root) == 0;
  }

  lemma ReachedIs(s: State, x: Id)
    requires Searching(Deep(), s) && x in s.Known()
    ensures |s.counts| == 2 && s.counts[0] <= |s.recorded|
    ensures Root in Tree() && (x == Root || (x in Tree() && Tree()[x].dir && Tree()[x].parent in s.recorded[..s.counts[0]]))
  {
    hide Tree, Emitted;
    assert Reached(Tree(), Root, s.recorded[..s.counts[0]], x);
  }

  lemma ShallowKnown(s: State)
    requires Searching(Deep(), s) && Shallow(s)
    ensures Distinct(s.Known()) && forall x :: x in s.Known() ==> x in Upper && |x| == 32
    ensures if s.counts[0] == 0 then forall x :: x in s.Known() ==> x == Root else forall x :: x in Upper ==> x in s.Known()
    ensures |s.Known()| <= 512 && (s.counts[0] == 0 ==> |s.Known()| == 1) && (s.counts[0] == 1 ==> |s.Known()| == 512)
  {
    hide Searching, Reached, Tree;
    var known := s.Known();
    assert Distinct(known) && Root in known by { KnownDistinct(s); }
    forall x | x in known ensures x in Upper && (s.counts[0] == 0 ==> x == Root) {
      ShallowReached(s, x);
    }
    if s.counts[0] == 1 {
      forall x | x in Upper ensures x in known {
        UpperReached(s, x);
      }
    } else if |known| > 1 {
      assert known[0] in known && known[1] in known;
    }
    UpperCount(known);
  }

  lemma KnownDistinct(s: State)
    requires Searching(Deep(), s)
    ensures Distinct(s.Known()) && Root in s.Known()
  {
    assert Reached(Tree(), Root, s.recorded[..s.counts[0]], Root);
  }

  lemma UpperReached(s: State, x: Id)
    requires Searching(Deep(), s) && Shallow(s) && s.counts[0] == 1 && x in Upper
    ensures x in s.Known()
  {
    hide IdOf, Row, Number, ParentOf, Emitted;
    assert s.recorded[..1][0] == Root;
    TreeFacts(Root);
    InRow(32, 512, x);
    TreeFacts(x);
    assert Reached(Tree(), Root, s.recorded[..s.counts[0]], x);
  }

  lemma SearchedKnown(s: State)
    requires Searching(Deep(), s) && Searched(s)
    ensures forall x :: x in s.Known() ==> |x| == 33 || x in s.recorded
    ensures forall x :: x in Lower ==> x in s.Known()
    ensures s.directory.Some? ==> |s.directory.value| == 33 && s.directory.value in Lower
  {
    hide IdOf, Row, Number, ParentOf, Emitted;
    forall x | x in s.Known() ensures |x| == 33 || x in s.recorded {
      TreeFacts(Root);
      TreeFacts(x);
    }
    forall x | x in Lower ensures x in s.Known() {
      InRow(33, 497, x);
      TreeFacts(x);
      assert Reached(Tree(), Root, s.recorded[..s.counts[0]], x);
    }
    if s.directory.Some? {
      SearchBounds(Deep(), s);
      assert s.Known()[|s.recorded|] == s.directory.value;
      TreeFacts(s.directory.value);
    }
  }

  // ------------------------------------------------------------------ first the ring fills

  /** The upper directories are being recorded, and no entries are returned yet. */
  ghost predicate Filling(m: Machine) {
    Shaped(m) && Shallow(m.s) && m.s.counts[1] == 0 && Unflagged(m.ids) && InStep(m.ids, m.s.recorded, m.s.counts)
  }

  lemma FillingFacts(m: Machine)
    requires Inv(Deep(), m) && Filling(m)
    ensures var k := |m.s.recorded| + |m.s.pending|;
            k <= 512 && m.ids.used == m.ids.log == 32 * k && m.values.used == Memory.VALUE_SIZE * |m.s.recorded|
    ensures m.s.directory.Some? ==> |m.s.directory.value| == 32 && |m.s.recorded| < 512
    ensures m.s.recorded == [] && m.s.directory.Some? ==> m.s.directory.value == Root
    ensures m.s.directory.None? && m.s.directories == [] ==> |m.s.recorded| == if m.s.counts[0] == 0 then 1 else 512
    ensures m.ids.size == ID_RING_SIZE && m.values.size == VALUE_RING_SIZE
  {
    hide Searching, Placed, Unflagged, Sated, FlagsOfFull, Concat;
    var s := m.s;
    ShallowKnown(s);
    assert forall x :: x in s.recorded + s.pending ==> x in s.Known();
    ConcatLength(s.recorded + s.pending, 32);
    IdsStored(m.ids, m.values, s.recorded, s.counts, s.pending);
    ValuesStored(m.ids, m.values, s.recorded, s.counts, s.pending);
    assert Offset(s.recorded, 0) == 0 by { ConcatLength([], 32); }
    if s.directory.Some? {
      assert s.Known()[|s.recorded|] == s.directory.value && s.directory.value in s.Known();
    }
  }

  /** Nothing is refused, and directories are searched when all are recorded. */
  lemma FillingDecides(m: Machine)
    requires Inv(Deep(), m) && Filling(m)
    ensures match m.stage
            case FetchDirectory => Decide(m) == if m.s.directories != [] then TakeDirectory else Read(DIRECTORIES)
            case RecordId => Decide(m) == PushId
            case RecordValue => Decide(m) == PushValue
  {
    hide Searching, Tracked, Placed, InStep;
    FillingFacts(m);
    UnflaggedSees(m.ids);
  }

  /** Everything recorded was searched for directories and nothing for entries: the id ring is full
      to the last byte, and the reader of directories flagged. */
  ghost predicate Full(m: Machine) {
    && Shaped(m) && Searched(m.s) && m.s.counts[1] == 0 && m.s.pending == [] && m.stage != RecordValue
    && (forall x :: x in m.s.recorded ==> |x| == 32) && m.s.recorded != []
    && m.ids.log == m.ids.used == ID_RING_SIZE && m.ids.pos == [ID_RING_SIZE, 0]
    && m.ids.readers[0].starved && !m.ids.readers[1].starved
  }

  lemma FillingReads(m: Machine, more: seq<Id>)
    requires Inv(Deep(), m) && Filling(m) && Decide(m) == Read(DIRECTORIES)
    requires m.stage == FetchDirectory && m.s.directories == [] && m.s.directory.None? && m.s.pending == []
    ensures Filling(AfterRead(m, DIRECTORIES, more)) || Full(AfterRead(m, DIRECTORIES, more))
  {
    hide Searching, Tracked, Placed, InStep, AfterAck, Unflagged;
    FillingFacts(m);
    ShallowKnown(m.s);
    UnflaggedSees(m.ids);
    ReadKeepsInStep(Deep(), m, DIRECTORIES, more);
    AfterReadShaped(m, DIRECTORIES, more);
    assert m.s.Known() == m.s.recorded;
    if m.s.counts[0] == 1 {
      LastRead(m, more);
    } 
  }

  lemma AfterReadShaped(m: Machine, r: nat, more: seq<Id>)
    requires Inv(Deep(), m) && Shaped(m) && r < 2 && m.stage == FetchDirectory
    ensures Shaped(AfterRead(m, r, more))
  {
    hide Searching, Concat;
    ReadTracks(m.ids, m.values, m.s.recorded, m.s.counts, m.s.pending, r);
  }

  lemma LastRead(m: Machine, more: seq<Id>)
    requires Inv(Deep(), m) && Filling(m) && m.s.counts[0] == 1 && m.stage == FetchDirectory && m.s.pending == []
    requires m.s.directories == [] && m.s.directory.None?
    ensures Full(AfterRead(m, DIRECTORIES, more))
  {
    hide Searching, Placed, Sated, FlagsOfFull, Concat, Sight;
    FillingFacts(m);
    ShallowKnown(m.s);
    UnflaggedSees(m.ids);
    AfterReadShaped(m, DIRECTORIES, more);
    assert m.s.Known() == m.s.recorded;
    assert m.s.recorded[..512] == m.s.recorded;
    SightIs(m.ids, DIRECTORIES);
    MinOfPair([ID_RING_SIZE, 0]);
    assert Offset(m.s.recorded, 0) == 0 by { ConcatLength([], 32); }
    assert m.s.recorded + m.s.pending == m.s.recorded;
    assert Advance(m.ids.pos, 0, Taken(m.s.recorded, m.s.counts, 0)) == [ID_RING_SIZE, 0];
  }

  lemma FillingStep(m: Machine, m': Machine)
    requires Inv(Deep(), m) && Filling(m) && Moves(Deep(), m, m')
    ensures Filling(m') || Full(m')
  {
    hide Searching, Tracked, InStep, Unflagged, AfterRead, AfterPush, Full, Tears, Sight;
    FillingFacts(m);
    FillingDecides(m);
    StepInv(Deep(), m, m');
    InvShaped(Deep(), m');
    match m.stage
    case FetchDirectory =>
      if m.s.directories == [] {
        var more :| Enumerates(more, Asked(Deep(), m.s, DIRECTORIES)) && m' == AfterRead(m, DIRECTORIES, more);
        FillingReads(m, more);
      }
    case RecordId => PushKeepsInStep(Deep(), m, m');
    case RecordValue => PushKeepsInStep(Deep(), m, m');
  }

  // ------------------------------------------------------------------ then both readers are flagged

  /** The lower directories are being recorded, and neither reader sees their ids. */
  ghost predicate Hidden(m: Machine) {
    BothFlagged(m, ID_RING_SIZE) && m.ids.size == ID_RING_SIZE && Searched(m.s) && m.ids.used % 33 == 0
  }

  /** The next directory is a lower one; its id is refused and the entries are served. */
  lemma FullDecides(m: Machine)
    requires Inv(Deep(), m) && Full(m)
    ensures Decide(m) == if m.stage == FetchDirectory then TakeDirectory else Read(FSENTRIES)
    ensures m.stage == FetchDirectory ==> m.s.directories != []
  {
    hide Searching, Placed, Sated, FlagsOfFull, Unflagged, Concat, Sight, Row;
    SearchedKnown(m.s);
    SightIs(m.ids, DIRECTORIES);
    SightIs(m.ids, FSENTRIES);
    assert Lower[0] == IdOf(33, 0) && Lower[0] in m.s.Known();
  }

  lemma FullStep(m: Machine, m': Machine)
    requires Inv(Deep(), m) && Full(m) && Moves(Deep(), m, m')
    ensures Full(m') || Hidden(m')
  {
    hide Searching, Tracked, Tears, Sight, AfterRead;
    FullDecides(m);
    StepInv(Deep(), m, m');
    InvShaped(Deep(), m');
    if m.stage == RecordId {
      var more :| Enumerates(more, Asked(Deep(), m.s, FSENTRIES)) && m' == AfterRead(m, FSENTRIES, more);
      EntriesRead(m, more);
    }
  }

  /** The reader of entries acks a whole ring. */
  lemma EntriesAck(m: Machine)
    requires Inv(Deep(), m) && Full(m)
    ensures Taken(m.s.recorded, m.s.counts, FSENTRIES) == ID_RING_SIZE == Sight(m.ids, FSENTRIES)
    ensures var w := AfterAck(m.ids, FSENTRIES, ID_RING_SIZE);
            && w.pos == [ID_RING_SIZE, ID_RING_SIZE] && w.log == ID_RING_SIZE && w.used == 0 && w.size == m.ids.size == ID_RING_SIZE
            && |w.readers| == 2 && w.readers[0].starved && w.readers[1].starved
  {
    hide Searching, Placed, Sated, FlagsOfFull, Unflagged, Concat, Sight, Row, Tree, FileSet, Depths, Advance, Min, Searched;
    SightIs(m.ids, FSENTRIES);
    SecondReadsAll(m.ids.pos);
    assert m.s.recorded + m.s.pending == m.s.recorded && m.s.recorded[..|m.s.recorded|] == m.s.recorded;
    assert Offset(m.s.recorded, 0) == 0 by { ConcatLength([], 32); }
  }

  lemma EntriesRead(m: Machine, more: seq<Id>)
    requires Inv(Deep(), m) && Full(m) && Shaped(AfterRead(m, FSENTRIES, more))
    ensures Hidden(AfterRead(m, FSENTRIES, more))
  {
    hide Inv, AfterAck, Sight, Taken, Row, Tree, FileSet, Depths;
    EntriesAck(m);
  }

  lemma SecondReadsAll(pos: seq<nat>)
    requires pos == [ID_RING_SIZE, 0]
    ensures Advance(pos, 1, ID_RING_SIZE) == [ID_RING_SIZE, ID_RING_SIZE] && Min([ID_RING_SIZE, ID_RING_SIZE]) == ID_RING_SIZE
  {
    MinOfPair([ID_RING_SIZE, ID_RING_SIZE]);
    assert pos[1 := pos[1] + ID_RING_SIZE] == [ID_RING_SIZE, ID_RING_SIZE];
  }

  /** Ids of 33 bytes never fill the ring. */
  lemma HiddenUsed(m: Machine, m': Machine)
    requires Inv(Deep(), m) && Hidden(m) && Moves(Deep(), m, m')
    ensures m'.ids.used % 33 == 0 && m'.ids.used < m'.ids.size == ID_RING_SIZE
  {
    hide Searching, Tracked, Tears, Sight, AfterTry, Searched, Row, Tree, FileSet, Depths;
    FlaggedSight(Deep(), m, ID_RING_SIZE);
    if Decide(m) == PushId {
      SearchedDirectory(m);
    } else if Decide(m).Read? {
      ServesUnread(m);
    }
  }

  lemma SearchedDirectory(m: Machine)
    requires Inv(Deep(), m) && Searched(m.s) && m.s.directory.Some?
    ensures |m.s.directory.value| == 33 && m.s.directory.value in Lower
  {
    hide Searching, Tracked, Searched, Row, Tree, FileSet, Depths;
    SearchedKnown(m.s);
  }

  /** What was searched remains so. */
  lemma SearchedGrows(q: Query, m: Machine, m': Machine)
    requires Inv(q, m) && Searched(m.s) && Moves(q, m, m') && Shaped(m')
    ensures Searched(m'.s)
  {
    hide Searching, Tracked, Tears, Sight, AfterTry, AfterAck, AfterPush, Row;
    if Decide(m).Read? {
      ServesUnread(m);
    }
    forall x | x in Upper ensures x in m'.s.recorded[..m'.s.counts[0]] {
      assert m.s.recorded[..m.s.counts[0]] <= m'.s.recorded[..m'.s.counts[0]];
    }
  }

  lemma HiddenStep(m: Machine, m': Machine)
    requires Inv(Deep(), m) && Hidden(m) && Moves(Deep(), m, m')
    ensures Hidden(m')
  {
    hide Inv, Moves, Searched, BothFlagged, Row, Tree, FileSet, Depths;
    HiddenUsed(m, m');
    FlaggedStep(Deep(), m, m', ID_RING_SIZE);
    StepInv(Deep(), m, m');
    InvShaped(Deep(), m');
    SearchedGrows(Deep(), m, m');
  }

  // ------------------------------------------------------------------ the end

  lemma {:induction false} DeepPhases(trace: seq<Machine>, i: nat)
    requires IsRun(Deep(), trace) && i < |trace|
    ensures Inv(Deep(), trace[i]) && (Filling(trace[i]) || Full(trace[i]) || Hidden(trace[i]))
  {
    hide Inv, Moves, Filling, Full, Hidden;
    RunInv(Deep(), trace, i);
    if i == 0 {
      StartFills();
    } else {
      DeepPhases(trace, i - 1);
      assert Moves(Deep(), trace[i - 1], trace[i - 1 + 1]);
      if Filling(trace[i - 1]) {
        FillingStep(trace[i - 1], trace[i]);
      } else if Full(trace[i - 1]) {
        FullStep(trace[i - 1], trace[i]);
      } else {
        HiddenStep(trace[i - 1], trace[i]);
      }
    }
  }

  lemma StartFills()
    ensures Filling(First(Deep()))
  {
    hide Answerable, Unflagged, InStep, Inv, Row, Tree, FileSet, Depths, IdOf;
    DeepAnswerable();
    FirstInv(Deep());
    InvShaped(Deep(), First(Deep()));
  }

  lemma UpperBelowRoot(x: Id)
    requires x in Upper && Answerable(Deep())
    ensures |x| == 32 && x in Tree() && Tree()[x].dir && Above(Tree(), Depths(), Root, x)
  {
    hide IdOf, Row, ParentOf, Number;
    InRow(32, 512, x);
    TreeFacts(x);
  }

  lemma LowerBelowRoot(x: Id)
    requires x in Lower && Answerable(Deep())
    ensures |x| == 33 && x in Tree() && Tree()[x].dir && Above(Tree(), Depths(), Root, x)
  {
    hide IdOf, Row, ParentOf, Number;
    InRow(33, 497, x);
    TreeFacts(x);
    UpperBelowRoot(Tree()[x].parent);
  }

  /** All directories together are more than the ring takes after it was full once. */
  lemma DirectoriesOfDeep()
    ensures Answerable(Deep()) && BranchDirectories(Tree(), Depths(), Root, Upper + Lower)
    ensures |Concat(Upper + Lower)| >= 2 * ID_RING_SIZE
  {
    hide IdOf, Row, Tree, Depths, FileSet, Concat, Above, TreeShaped;
    DeepAnswerable();
    forall x | x in Upper ensures |x| == 32 && x in Tree() && Tree()[x].dir && Above(Tree(), Depths(), Root, x) {
      UpperBelowRoot(x);
    }
    forall x | x in Lower ensures |x| == 33 && x in Tree() && Tree()[x].dir && Above(Tree(), Depths(), Root, x) {
      LowerBelowRoot(x);
    }
    RowDistinct(32, 512);
    RowDistinct(33, 497);
    DistinctAppend(Upper, Lower);
    ConcatLength(Upper, 32);
    ConcatLength(Lower, 33);
    ConcatAppend(Upper, Lower);
  }

  /** However the backend orders its answers, the traversal of this tree ends as if it were
      complete, with a directory left over and the file in it not returned. */
  lemma DeepLoses(trace: seq<Machine>)
    requires IsRun(Deep(), trace) && Shaped(trace[|trace| - 1]) && Decide(trace[|trace| - 1]).Stop?
    ensures Answerable(Deep())
    ensures Decide(trace[|trace| - 1]) == Stop(Exhausted) && !Enumerates(trace[|trace| - 1].s.out, Answer(Deep()))
  {
    hide Inv, Filling, Full, Decide, Searched, Tree, Above, Concat;
    var m := trace[|trace| - 1];
    DeepPhases(trace, |trace| - 1);
    if Filling(m) {
      FillingDecides(m);
      assert false;
    } else if Full(m) {
      FullDecides(m);
      assert false;
    } else {
      DirectoriesOfDeep();
      FlaggedStop(Deep(), m, ID_RING_SIZE);
      assert m.s.directory.Some?;
      HiddenNeverFails(m);
      HiddenLoses(m);
    }
  }

  /** The file of a lower directory. */
  lemma FileIn(d: Id)
    requires d in Lower
    ensures exists x :: x in FileSet() && Tree()[x].parent == d
  {
    hide Row, IdOf;
    InRow(33, 497, d);
    var x := Files[Number(d)];
    assert x == IdOf(34, Number(d)) && x in Files && x in FileSet();
    assert ParentOf(x) == d;
  }

  lemma HiddenNeverFails(m: Machine)
    requires Inv(Deep(), m) && Hidden(m)
    ensures Decide(m) != Stop(Failed)
  {
    hide Searching, Searched, Tracked, Tears, Sight, Tree, Depths, FileSet;
    if m.s.directory.Some? {
      SearchedDirectory(m);
    }
  }

  lemma HiddenLoses(m: Machine)
    requires Inv(Deep(), m) && Hidden(m) && m.s.directory.Some? && Answerable(Deep())
    ensures !Enumerates(m.s.out, Answer(Deep()))
  {
    hide Inv, Answer, Searched, BothFlagged, Row, Tree, Depths, FileSet;
    InvShaped(Deep(), m);
    SearchedDirectory(m);
    CutShort(Deep(), m);
    FileIn(m.s.directory.value);
  }

  /** The traversal of this tree: files are missing and nothing tells. */
  method TraverseDeep() returns (entries: seq<Id>, end: End)
    ensures Answerable(Deep()) && end == Exhausted && !Enumerates(entries, Answer(Deep()))
  {
    hide IsRun, Decide;
    DeepAnswerable();
    ghost var trace;
    entries, end, trace := Branch.Traverse(Tree(), Root, FileSet(), Depths());
    DeepLoses(trace);
  }
}
