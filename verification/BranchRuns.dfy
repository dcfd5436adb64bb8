/** The traversal of a branch as a state machine: what the code decides in each state, and what is
    true of all its runs, whatever order the backend answers in. Two rings hold the directories
    found; one reader of each looks for more directories, the other for the entries to return.
 */
module BranchRuns {
  import opened Wrappers
  import opened Forest
  import Memory
  import opened MultiRing
  import opened BranchSearch
  import opened BranchLinks

  // ------------------------------------------------------------------ the state of a search

  /** A backend, the root of the branch, and the entries that pass the filter. */
  datatype Query = Query(es: Entries, depth: map<Id, nat>, root: Id, matches: set<Id>)

  /** What the traversal is given. */
  ghost predicate Answerable(q: Query) {
    TreeShaped(q.es, q.depth) && q.root in q.es && q.matches <= q.es.Keys
  }

  ghost function Answer(q: Query): set<Id>
    requires TreeShaped(q.es, q.depth)
  {
    q.matches * Subtree(q.es, q.depth, q.root)
  }

  ghost predicate BranchDirectory(q: Query, x: Id)
    requires TreeShaped(q.es, q.depth)
  {
    x in q.es && Above(q.es, q.depth, q.root, x) && (x == q.root || q.es[x].dir)
  }

  /** Some directory of the branch has an id that no ring can hold. */
  ghost predicate Oversized(q: Query)
    requires TreeShaped(q.es, q.depth)
  {
    exists x :: BranchDirectory(q, x) && |x| > ID_RING_SIZE
  }

  /** The directories recorded, how many of them each reader has read, the one in the id ring
      only, the one being recorded, those found and not fetched, and the entries found. */
  datatype State = State(recorded: seq<Id>, counts: seq<nat>, pending: seq<Id>,
                         directory: Option<Id>, directories: seq<Id>, out: seq<Id>)
  {
    function Known(): seq<Id> {
      recorded + (if directory.Some? then [directory.value] else []) + directories
    }
  }

  /** What holds between any two steps. */
  ghost predicate Searching(q: Query, s: State) {
    && Answerable(q)
    && |s.counts| == 2 && s.counts[0] <= |s.recorded| && s.counts[1] <= |s.recorded|
    && (s.pending == [] || (s.directory.Some? && s.pending == [s.directory.value]))
    && Explored(q.es, q.root, s.recorded, s.counts[0], s.Known())
    && Emitted(q.es, q.root, q.matches, s.recorded[..s.counts[1]], s.out)
    && (forall x :: x in s.recorded + s.pending ==> |x| <= ID_RING_SIZE)
  }

  /** The search starts with the root to record, and the root to return if it matches. */
  function Start(q: Query): State {
    State([], [0, 0], [], Some(q.root), [], if q.root in q.matches then [q.root] else [])
  }

  lemma StartSearches(q: Query)
    requires Answerable(q)
    ensures Searching(q, Start(q))
  {
    assert Start(q).Known() == [q.root];
  }

  /** No more directories than entries in the branch. */
  ghost function Bound(q: Query): nat {
    if TreeShaped(q.es, q.depth) then |Subtree(q.es, q.depth, q.root)| else 0
  }

  lemma SearchBounds(q: Query, s: State)
    requires Searching(q, s)
    ensures TreeShaped(q.es, q.depth) && |s.recorded| <= Bound(q) && Distinct(s.recorded)
    ensures |s.counts| == 2 && s.counts[0] <= |s.recorded| && s.counts[1] <= |s.recorded|
    ensures s.directory.Some? ==> s.directory.value !in s.recorded && BranchDirectory(q, s.directory.value)
  {
    KnownAreBranchDirectories(q.es, q.depth, q.root, s.recorded, s.counts[0], s.Known());
    SliceOfBranchDirectories(q.es, q.depth, q.root, s.Known(), 0, |s.recorded|);
    assert s.Known()[0..|s.recorded|] == s.recorded;
    DistinctBound(s.recorded, Subtree(q.es, q.depth, q.root));
    if s.directory.Some? {
      assert s.Known()[|s.recorded|] == s.directory.value && s.directory.value in s.Known();
      assert forall i | 0 <= i < |s.recorded| :: s.recorded[i] == s.Known()[i] != s.directory.value;
    }
  }

  predicate Finished(s: State) {
    s.directory.None? && s.directories == [] && s.pending == [] && s.counts == [|s.recorded|, |s.recorded|]
  }

  /** Nothing left to record or to read: the search is over and exact. */
  lemma FinishedIsExact(q: Query, s: State)
    requires Searching(q, s) && Finished(s)
    ensures Enumerates(s.out, Answer(q)) && !Oversized(q)
  {
    assert s.Known() == s.recorded && s.recorded[..|s.recorded|] == s.recorded;
    TraversalExact(q.es, q.depth, q.root, q.matches, s.recorded, s.out);
    forall x | BranchDirectory(q, x) ensures |x| <= ID_RING_SIZE {
      ExploredAll(q.es, q.depth, q.root, s.recorded, x);
      assert x in s.recorded + s.pending;
    }
  }

  // ------------------------------------------------------------------ its steps

  /** Subdirectories of what the first reader has not read. */
  function SubdirectoriesOf(es: Entries, dirs: seq<Id>): set<Id> {
    set x | x in es && es[x].dir && es[x].parent in dirs
  }

  function MatchesIn(es: Entries, matches: set<Id>, dirs: seq<Id>): set<Id> {
    set x | x in es && x in matches && es[x].parent in dirs
  }

  function AfterRecurse(s: State, more: seq<Id>): State
    requires |s.counts| == 2
  {
    s.(counts := s.counts[DIRECTORIES := |s.recorded|], directories := s.directories + more)
  }

  lemma RecurseSearches(q: Query, s: State, more: seq<Id>)
    requires Searching(q, s) && Enumerates(more, SubdirectoriesOf(q.es, s.recorded[s.counts[0]..]))
    ensures Searching(q, AfterRecurse(s, more))
  {
    hide Emitted, Explored;
    RecurseKeepsExplored(q.es, q.depth, q.root, s.recorded, s.counts[0], s.Known(), more);
    assert s.Known() + more == AfterRecurse(s, more).Known();
  }

  function AfterEmit(s: State, more: seq<Id>): State
    requires |s.counts| == 2
  {
    s.(counts := s.counts[FSENTRIES := |s.recorded|], out := s.out + more)
  }

  lemma EmitSearches(q: Query, s: State, more: seq<Id>)
    requires Searching(q, s) && Enumerates(more, MatchesIn(q.es, q.matches, s.recorded[s.counts[1]..]))
    ensures Searching(q, AfterEmit(s, more))
  {
    EmitKeepsEmitted(q.es, q.depth, q.root, q.matches, s.recorded, s.counts[0], s.Known(), s.counts[1], s.out, more);
    assert s.recorded[..|s.recorded|] == s.recorded;
    assert s.Known() == AfterEmit(s, more).Known();
  }

  function AfterFetch(s: State): State
    requires s.directories != []
  {
    s.(directory := Some(s.directories[0]), directories := s.directories[1..])
  }

  lemma FetchSearches(q: Query, s: State)
    requires Searching(q, s) && s.directory.None? && s.directories != []
    ensures Searching(q, AfterFetch(s))
  {
    assert s.Known() == AfterFetch(s).Known();
  }

  lemma PushSearches(q: Query, s: State)
    requires Searching(q, s) && s.directory.Some? && s.pending == [] && |s.directory.value| <= ID_RING_SIZE
    ensures Searching(q, s.(pending := [s.directory.value]))
  {
    assert s.Known() == s.(pending := [s.directory.value]).Known();
    assert forall x :: x in s.recorded ==> x in s.recorded + s.pending;
  }

  function AfterRecord(s: State): State {
    s.(recorded := s.recorded + s.pending, pending := [], directory := None)
  }

  lemma RecordSearches(q: Query, s: State)
    requires Searching(q, s) && s.directory.Some? && s.pending == [s.directory.value]
    ensures Searching(q, AfterRecord(s))
  {
    var w := AfterRecord(s);
    assert s.Known() == w.Known();
    assert w.recorded[..s.counts[0]] == s.recorded[..s.counts[0]];
    assert w.recorded[..s.counts[1]] == s.recorded[..s.counts[1]];
    assert w.recorded + [] == s.recorded + s.pending;
  }

  // ------------------------------------------------------------------ the machine

  /** Where `branch_next_fsentries` resumes. */
  datatype Stage = FetchDirectory | RecordId | RecordValue

  /** A search, and the bookkeeping of its two rings. */
  datatype Machine = Machine(s: State, stage: Stage, ids: View, values: View)

  /** How a run ends: ENODATA, EINVAL, a failed assertion, or with an ack after which ids that a
      reader still needs may be written over (the run is not followed further). */
  datatype End = Exhausted | Failed | Aborted | Torn

  datatype Choice = TakeDirectory | PushId | PushValue | Read(reader: nat) | Stop(end: End)

  ghost predicate Shaped(m: Machine) {
    && |m.s.counts| == 2 && m.s.counts[0] <= |m.s.recorded| && m.s.counts[1] <= |m.s.recorded|
    && (m.stage != FetchDirectory ==> m.s.directory.Some?)
    && 0 < m.ids.size && m.ids.used <= m.ids.log && |m.ids.readers| == |m.ids.pos| == 2
    && 0 < m.values.size && |m.values.readers| == |m.values.pos| == 2
    && m.values.pos[0] <= m.values.log && m.values.pos[1] <= m.values.log
  }

  predicate HasWork(s: State, r: nat)
    requires r < |s.counts|
  {
    s.counts[r] < |s.recorded|
  }

  /** Serving a reader that has something to read. */
  ghost function Serve(m: Machine, r: nat): Choice
    requires Shaped(m) && r < 2
  {
    if Tears(m.ids, r, Taken(m.s.recorded, m.s.counts, r)) then Stop(Torn) else Read(r)
  }

  /** A ring is full: the reader that seems to be further behind is served. */
  ghost function Room(m: Machine): Choice
    requires Shaped(m)
  {
    var r := Largest(m.ids);
    if HasWork(m.s, r) then Serve(m, r) else Stop(if r == DIRECTORIES then Aborted else Exhausted)
  }

  ghost function Decide(m: Machine): Choice
    requires Shaped(m)
  {
    match m.stage
    case FetchDirectory =>
      if m.s.directories != [] then TakeDirectory
      else if HasWork(m.s, DIRECTORIES) then Serve(m, DIRECTORIES)
      else if HasWork(m.s, FSENTRIES) then Serve(m, FSENTRIES)
      else Stop(Exhausted)
    case RecordId =>
      var size := |m.s.directory.value|;
      if m.ids.used + size <= m.ids.size then PushId else if size > m.ids.size then Stop(Failed) else Room(m)
    case RecordValue =>
      if m.values.used + Memory.VALUE_SIZE <= m.values.size then PushValue else Room(m)
  }

  /** What the backend has for a reader. */
  function Asked(q: Query, s: State, r: nat): set<Id>
    requires r < |s.counts| && s.counts[r] <= |s.recorded|
  {
    var dirs := s.recorded[s.counts[r]..];
    if r == DIRECTORIES then SubdirectoriesOf(q.es, dirs) else MatchesIn(q.es, q.matches, dirs)
  }

  ghost function AfterRead(m: Machine, r: nat, more: seq<Id>): Machine
    requires Shaped(m) && r < 2
  {
    m.(s := if r == DIRECTORIES then AfterRecurse(m.s, more) else AfterEmit(m.s, more),
       ids := AfterTry(m.ids, r, Taken(m.s.recorded, m.s.counts, r)),
       values := AfterAck(m.values, r, m.values.log - m.values.pos[r]))
  }

  ghost predicate Moves(q: Query, m: Machine, m': Machine) {
    Shaped(m) &&
    match Decide(m)
    case TakeDirectory => m' == m.(s := AfterFetch(m.s), stage := RecordId)
    case PushId =>
      var id := m.s.directory.value;
      m' == m.(s := m.s.(pending := [id]), ids := AfterPush(m.ids, |id|), stage := RecordValue)
    case PushValue => m' == m.(s := AfterRecord(m.s), values := AfterPush(m.values, Memory.VALUE_SIZE), stage := FetchDirectory)
    case Read(r) => exists more :: Enumerates(more, Asked(q, m.s, r)) && m' == AfterRead(m, r, more)
    case Stop(_) => false
  }

  // ------------------------------------------------------------------ what every step keeps

  ghost predicate Inv(q: Query, m: Machine) {
    && Searching(q, m.s) && Tracked(m.ids, m.values, m.s.recorded, m.s.counts, m.s.pending)
    && match m.stage
       case FetchDirectory => m.s.directory.None? && m.s.pending == []
       case RecordId => m.s.directory.Some? && m.s.pending == []
       case RecordValue => m.s.directory.Some? && m.s.pending == [m.s.directory.value]
  }

  lemma InvShaped(q: Query, m: Machine)
    requires Inv(q, m)
    ensures Shaped(m)
  {
  }

  lemma ReadKeepsSearching(q: Query, m: Machine, r: nat, more: seq<Id>)
    requires Inv(q, m) && r < 2 && Shaped(m) && Enumerates(more, Asked(q, m.s, r))
    ensures Searching(q, AfterRead(m, r, more).s)
  {
    hide Searching, Tracked, AfterTry, AfterAck, SubdirectoriesOf, MatchesIn, Enumerates;
    if r == DIRECTORIES {
      RecurseSearches(q, m.s, more);
    } else {
      EmitSearches(q, m.s, more);
    }
  }

  lemma ReadKeepsInv(q: Query, m: Machine, r: nat, more: seq<Id>)
    requires Inv(q, m) && r < 2 && Shaped(m) && Enumerates(more, Asked(q, m.s, r))
    ensures Inv(q, AfterRead(m, r, more))
  {
    hide Searching, Tracked, AfterTry, AfterAck, Asked, Enumerates, Taken;
    ReadKeepsSearching(q, m, r, more);
    ReadTracks(m.ids, m.values, m.s.recorded, m.s.counts, m.s.pending, r);
  }

  lemma InvParts(q: Query, m: Machine)
    requires Inv(q, m)
    ensures Shaped(m) && Searching(q, m.s) && Tracked(m.ids, m.values, m.s.recorded, m.s.counts, m.s.pending)
    ensures m.ids.size == ID_RING_SIZE && m.values.size == VALUE_RING_SIZE
  {
  }

  lemma PushIdKeepsInv(q: Query, m: Machine, m': Machine)
    requires Inv(q, m) && Shaped(m) && Decide(m) == PushId && Moves(q, m, m')
    ensures Inv(q, m')
  {
    hide Searching, Tracked;
    InvParts(q, m);
    PushSearches(q, m.s);
    PushIdTracks(m.ids, m.values, m.s.recorded, m.s.counts, m.s.directory.value);
  }

  lemma PushValueKeepsInv(q: Query, m: Machine, m': Machine)
    requires Inv(q, m) && Shaped(m) && Decide(m) == PushValue && Moves(q, m, m')
    ensures Inv(q, m')
  {
    hide Searching, Tracked;
    InvParts(q, m);
    RecordSearches(q, m.s);
    PushValueTracks(m.ids, m.values, m.s.recorded, m.s.counts, m.s.directory.value);
  }

  /** Whatever the flags of the id ring say: the readers' places, the ids that lie in the rings,
      the directories known and the entries returned fit together. */
  lemma StepInv(q: Query, m: Machine, m': Machine)
    requires Inv(q, m) && Moves(q, m, m')
    ensures Inv(q, m')
  {
    hide Tracked;
    match Decide(m)
    case TakeDirectory => FetchSearches(q, m.s);
    case PushId => PushIdKeepsInv(q, m, m');
    case PushValue => PushValueKeepsInv(q, m, m');
    case Read(r) =>
      var more :| Enumerates(more, Asked(q, m.s, r)) && m' == AfterRead(m, r, more);
      ReadKeepsInv(q, m, r, more);
    case Stop(_) =>
  }

  /** How far a search is; it ends because this grows and is bounded. */
  function Progress(m: Machine): nat
    requires |m.s.counts| == 2
  {
    3 * |m.s.recorded| + (match m.stage case FetchDirectory => 0 case RecordId => 1 case RecordValue => 2)
    + m.s.counts[0] + m.s.counts[1]
  }

  lemma ServesUnread(m: Machine)
    requires Shaped(m) && Decide(m).Read?
    ensures Decide(m).reader < 2 && HasWork(m.s, Decide(m).reader)
  {
    hide Tears, Sight, Taken;
  }

  lemma StepGrows(q: Query, m: Machine, m': Machine)
    requires Inv(q, m) && Moves(q, m, m')
    ensures |m.s.counts| == |m'.s.counts| == 2 && Progress(m) < Progress(m')
  {
    hide Searching, Tracked, AfterTry, AfterAck;
    if Decide(m).Read? {
      ServesUnread(m);
    }
  }

  lemma StepProgress(q: Query, m: Machine, m': Machine)
    requires Inv(q, m) && Moves(q, m, m')
    ensures |m.s.counts| == |m'.s.counts| == 2 && Progress(m) < Progress(m') <= 5 * Bound(q) + 2
  {
    hide Searching, Tracked, Moves, Bound;
    StepInv(q, m, m');
    StepGrows(q, m, m');
    InvParts(q, m');
    SearchBounds(q, m'.s);
  }

  // ------------------------------------------------------------------ while the readers see

  /** No reader was ever flagged, nor an ack refused. */
  ghost predicate Clean(m: Machine) {
    Unflagged(m.ids) && InStep(m.ids, m.s.recorded, m.s.counts)
  }

  lemma ReadKeepsInStep(q: Query, m: Machine, r: nat, more: seq<Id>)
    requires Inv(q, m) && Shaped(m) && r < 2 && InStep(m.ids, m.s.recorded, m.s.counts) && !Blinded(m.ids, r)
    ensures InStep(AfterRead(m, r, more).ids, m.s.recorded, m.s.counts[r := |m.s.recorded|])
    ensures Unflagged(m.ids) && m.ids.used < m.ids.size ==> Unflagged(AfterRead(m, r, more).ids)
  {
    hide Searching, InStep, Unflagged, Placed;
    var taken := Taken(m.s.recorded, m.s.counts, r);
    ReadInStep(m.ids, m.values, m.s.recorded, m.s.counts, m.s.pending, r);
    if Unflagged(m.ids) && m.ids.used < m.ids.size && m.ids.pos[r] + taken <= m.ids.log {
      AckKeepsUnflagged(m.ids, r, taken);
    }
  }

  lemma PushKeepsInStep(q: Query, m: Machine, m': Machine)
    requires Inv(q, m) && Shaped(m) && (Decide(m) == PushId || Decide(m) == PushValue) && Moves(q, m, m')
    requires InStep(m.ids, m.s.recorded, m.s.counts)
    ensures InStep(m'.ids, m'.s.recorded, m'.s.counts)
    ensures Unflagged(m.ids) ==> Unflagged(m'.ids)
  {
    hide Searching, InStep, Tracked, Unflagged, AfterPush;
    InvParts(q, m);
    var id := m.s.directory.value;
    if Decide(m) == PushId {
      PushIdTracks(m.ids, m.values, m.s.recorded, m.s.counts, id);
      if Unflagged(m.ids) {
        PushKeepsUnflagged(m.ids, |id|);
      }
    } else {
      PushValueTracks(m.ids, m.values, m.s.recorded, m.s.counts, id);
    }
  }

  /** A reader that sees its backlog is never refused an ack; until the ring is full, none is flagged. */
  lemma StepKeepsInStep(q: Query, m: Machine, m': Machine)
    requires Inv(q, m) && Moves(q, m, m') && InStep(m.ids, m.s.recorded, m.s.counts)
    requires forall r :: 0 <= r < 2 ==> !Blinded(m.ids, r)
    ensures InStep(m'.ids, m'.s.recorded, m'.s.counts)
    ensures Unflagged(m.ids) && m.ids.used < m.ids.size ==> Unflagged(m'.ids)
  {
    hide Searching, InStep, Tracked, Unflagged, AfterTry, AfterAck, AfterPush;
    InvParts(q, m);
    match Decide(m)
    case TakeDirectory =>
    case PushId => PushKeepsInStep(q, m, m');
    case PushValue => PushKeepsInStep(q, m, m');
    case Read(r) =>
      var more :| Enumerates(more, Asked(q, m.s, r)) && m' == AfterRead(m, r, more);
      ServesUnread(m);
      ReadKeepsInStep(q, m, r, more);
    case Stop(_) =>
  }

  /** While readers see their backlog, a search stops for one of two reasons only. */
  lemma SeeingStops(q: Query, m: Machine)
    requires Inv(q, m) && Shaped(m) && Decide(m).Stop? && Coherent(m.ids) && InStep(m.ids, m.s.recorded, m.s.counts)
    ensures Decide(m) == Stop(Failed) || (Decide(m) == Stop(Exhausted) && m.s.directory.None?)
  {
    hide Explored, Emitted, Coherent, Placed, Sight;
    SearchBounds(q, m.s);
    CoherentIsSated(m.ids);
    forall r | 0 <= r < 2 ensures !Tears(m.ids, r, Taken(m.s.recorded, m.s.counts, r)) {
      if j :| 0 <= j < 2 && j != r && m.ids.pos[j] == m.ids.log - m.ids.used {
        assert !Blinded(m.ids, j);
      }
    }
    if m.stage != FetchDirectory && !(m.stage == RecordId && |m.s.directory.value| > m.ids.size) {
      LargestHasWork(m.ids, m.values, m.s.recorded, m.s.counts, m.s.pending);
    }
  }

  // ------------------------------------------------------------------ how a search ends

  /** The end is true when no directory is left to record: everything was searched. */
  lemma TrueEnd(q: Query, m: Machine)
    requires Inv(q, m) && Shaped(m) && Decide(m) == Stop(Exhausted) && m.s.directory.None?
    ensures Enumerates(m.s.out, Answer(q)) && !Oversized(q)
  {
    hide Explored, Emitted, Tracked, Tears, Oversized;
    assert Finished(m.s);
    FinishedIsExact(q, m.s);
  }

  /** Otherwise the search is cut short: a directory of the branch is dropped, and nothing in it
      is returned. */
  lemma CutShort(q: Query, m: Machine)
    requires Inv(q, m) && Shaped(m) && m.s.directory.Some?
    ensures var d := m.s.directory.value;
            && BranchDirectory(q, d) && d !in m.s.recorded
            && forall x :: x in q.matches && q.es[x].parent == d ==> x !in m.s.out && x in Answer(q)
  {
    var d := m.s.directory.value;
    SearchBounds(q, m.s);
    forall x | x in q.matches && q.es[x].parent == d ensures x !in m.s.out && x in Answer(q) {
      assert HasParent(q.es, x);
      AboveIsEntry(q.es, q.depth, q.root, d);
      assert x != q.root;
    }
  }

  /** An end is true exactly if every directory of the branch was searched. */
  lemma TrueEndIff(q: Query, m: Machine)
    requires Inv(q, m) && Shaped(m) && Decide(m) == Stop(Exhausted)
    ensures TreeShaped(q.es, q.depth)
    ensures m.s.directory.None? <==> forall x :: BranchDirectory(q, x) ==> x in m.s.recorded
  {
    hide Tracked, Emitted, Tears, Above, Largest;
    if m.s.directory.Some? {
      CutShort(q, m);
    } else {
      forall x | BranchDirectory(q, x) ensures x in m.s.recorded {
        assert Finished(m.s) && m.s.Known() == m.s.recorded;
        ExploredAll(q.es, q.depth, q.root, m.s.recorded, x);
      }
    }
  }

  /** An id larger than the ring is the one thing that fails. */
  lemma FailedEnd(q: Query, m: Machine)
    requires Inv(q, m) && Shaped(m) && Decide(m) == Stop(Failed)
    ensures Oversized(q)
  {
    hide Searching, Tracked, Tears, Sight, Taken, BranchDirectory;
    InvParts(q, m);
    SearchBounds(q, m.s);
    assert BranchDirectory(q, m.s.directory.value);
  }

  // ------------------------------------------------------------------ runs

  function First(q: Query): Machine {
    Machine(Start(q), RecordId, EmptyView(ID_RING_SIZE), EmptyView(VALUE_RING_SIZE))
  }

  lemma FirstInv(q: Query)
    requires Answerable(q)
    ensures Inv(q, First(q)) && Clean(First(q))
  {
    StartSearches(q);
    EmptyUnflagged(ID_RING_SIZE);
    EmptyUnflagged(VALUE_RING_SIZE);
    EmptyTracks(First(q).ids, First(q).values);
  }

  lemma EmptyUnflagged(size: nat)
    requires 0 < size
    ensures Unflagged(EmptyView(size))
  {
    MinOfPair([0, 0]);
  }

  ghost predicate IsRun(q: Query, trace: seq<Machine>) {
    && trace != [] && Answerable(q) && trace[0] == First(q)
    && forall i :: 0 <= i < |trace| - 1 ==> Moves(q, trace[i], trace[i + 1])
  }

  /** All readers of the id ring see what they have to read, throughout. */
  ghost predicate AlwaysSees(trace: seq<Machine>) {
    forall i :: 0 <= i < |trace| ==> Coherent(trace[i].ids)
  }

  /** The id ring is never full to the last byte. */
  ghost predicate NeverFull(trace: seq<Machine>) {
    forall i :: 0 <= i < |trace| ==> trace[i].ids.used < trace[i].ids.size
  }

  lemma {:induction false} RunInv(q: Query, trace: seq<Machine>, i: nat)
    requires IsRun(q, trace) && i < |trace|
    ensures Inv(q, trace[i]) && Shaped(trace[i])
  {
    hide Inv, Moves;
    if i > 0 {
      RunInv(q, trace, i - 1);
      assert Moves(q, trace[i - 1], trace[i - 1 + 1]);
      StepInv(q, trace[i - 1], trace[i]);
    } else {
      FirstInv(q);
    }
    InvShaped(q, trace[i]);
  }

  lemma {:induction false} SeeingInStep(q: Query, trace: seq<Machine>, i: nat)
    requires IsRun(q, trace) && i < |trace| && forall k :: 0 <= k < i ==> Coherent(trace[k].ids)
    ensures InStep(trace[i].ids, trace[i].s.recorded, trace[i].s.counts)
  {
    hide Inv, Moves, Coherent, InStep;
    if i > 0 {
      SeeingInStep(q, trace, i - 1);
      RunInv(q, trace, i - 1);
      CoherentIsSated(trace[i - 1].ids);
      assert Moves(q, trace[i - 1], trace[i - 1 + 1]);
      StepKeepsInStep(q, trace[i - 1], trace[i]);
    } else {
      FirstInv(q);
    }
  }

  lemma UnflaggedSees(v: View)
    requires Unflagged(v)
    ensures Coherent(v) && forall i :: 0 <= i < |v.pos| ==> !Blinded(v, i)
  {
    UnflaggedIsCoherent(v);
    CoherentIsSated(v);
  }

  lemma {:induction false} CleanUntilFull(q: Query, trace: seq<Machine>, i: nat)
    requires IsRun(q, trace) && i < |trace| && forall k :: 0 <= k < i ==> trace[k].ids.used < trace[k].ids.size
    ensures Clean(trace[i])
  {
    hide Inv, Moves, InStep, Unflagged;
    if i > 0 {
      CleanUntilFull(q, trace, i - 1);
      RunInv(q, trace, i - 1);
      UnflaggedSees(trace[i - 1].ids);
      assert Moves(q, trace[i - 1], trace[i - 1 + 1]);
      StepKeepsInStep(q, trace[i - 1], trace[i]);
    } else {
      FirstInv(q);
    }
  }

  /** A run in which the id ring is never exactly full misleads no reader. */
  lemma NeverFullSees(q: Query, trace: seq<Machine>)
    requires IsRun(q, trace) && NeverFull(trace)
    ensures AlwaysSees(trace)
  {
    forall i | 0 <= i < |trace| ensures Coherent(trace[i].ids) {
      CleanUntilFull(q, trace, i);
      UnflaggedSees(trace[i].ids);
    }
  }

  /** The id ring gets full only where some directories of the branch fill it exactly. */
  lemma FullNeedsExactFill(q: Query, trace: seq<Machine>)
    requires IsRun(q, trace) && !NeverFull(trace)
    ensures TreeShaped(q.es, q.depth) && !NoExactFill(q.es, q.depth, q.root)
  {
    hide Moves, Clean, NoExactFill;
    var i := 0;
    RunInv(q, trace, i);
    while trace[i].ids.used < trace[i].ids.size
      invariant i < |trace| && forall k :: 0 <= k < i ==> trace[k].ids.used < trace[k].ids.size
      decreases |trace| - i
    {
      i := i + 1;
    }
    RunInv(q, trace, i);
    FullAt(q, trace, i);
  }

  lemma FullAt(q: Query, trace: seq<Machine>, i: nat)
    requires IsRun(q, trace) && i < |trace| && trace[i].ids.used >= trace[i].ids.size
    requires forall k :: 0 <= k < i ==> trace[k].ids.used < trace[k].ids.size
    ensures TreeShaped(q.es, q.depth) && !NoExactFill(q.es, q.depth, q.root)
  {
    hide Moves, NoExactFill, Emitted, Explored, IsRun, Unflagged;
    var m := trace[i];
    RunInv(q, trace, i);
    CleanUntilFull(q, trace, i);
    assert m.s.recorded + m.s.pending <= m.s.Known();
    FullIsExactFill(q.es, q.depth, q.root, m.ids, m.values, m.s.recorded, m.s.counts, m.s.pending, m.s.counts[0], m.s.Known());
  }

  /** What the traversal is for: the matching entries of the branch, each once, or a failure exactly
      if some directory has an id that no ring can hold. */
  ghost predicate Right(q: Query, end: End, entries: seq<Id>)
    requires TreeShaped(q.es, q.depth)
  {
    && end == (if Oversized(q) then Failed else Exhausted)
    && (end == Exhausted ==> Enumerates(entries, Answer(q)))
  }

  /** A run in which every reader sees what it has to read ends right. */
  lemma SeeingIsRight(q: Query, trace: seq<Machine>)
    requires IsRun(q, trace) && AlwaysSees(trace) && Shaped(trace[|trace| - 1]) && Decide(trace[|trace| - 1]).Stop?
    ensures TreeShaped(q.es, q.depth) && Right(q, Decide(trace[|trace| - 1]).end, trace[|trace| - 1].s.out)
  {
    hide Moves, Coherent, InStep, Decide, Oversized;
    var n := |trace| - 1;
    var m := trace[n];
    RunInv(q, trace, n);
    SeeingInStep(q, trace, n);
    SeeingStops(q, m);
    if Decide(m) == Stop(Failed) {
      FailedEnd(q, m);
    } else {
      TrueEnd(q, m);
    }
  }

  /** Every run ends. */
  lemma {:induction false} RunsAreShort(q: Query, trace: seq<Machine>, i: nat)
    requires IsRun(q, trace) && i < |trace|
    ensures |trace[i].s.counts| == 2 && i <= Progress(trace[i]) <= 5 * Bound(q) + 2
  {
    hide Inv, Moves, Bound;
    RunInv(q, trace, i);
    if i > 0 {
      RunsAreShort(q, trace, i - 1);
      RunInv(q, trace, i - 1);
      assert Moves(q, trace[i - 1], trace[i - 1 + 1]);
      StepProgress(q, trace[i - 1], trace[i]);
    } else {
      InvParts(q, trace[0]);
      SearchBounds(q, trace[0].s);
      BoundPositive(q, trace[0]);
    }
  }

  lemma BoundPositive(q: Query, m: Machine)
    requires Inv(q, m)
    ensures 0 < Bound(q)
  {
    assert q.root in Subtree(q.es, q.depth, q.root);
  }

  /** Reading nothing changes nothing. */
  lemma NothingRead(q: Query, m: Machine, r: nat)
    requires Inv(q, m) && Shaped(m) && r < 2 && !HasWork(m.s, r)
    ensures AfterTry(m.ids, r, Taken(m.s.recorded, m.s.counts, r)) == m.ids && m.s.counts[r := |m.s.recorded|] == m.s.counts
    ensures AfterAck(m.values, r, m.values.log - m.values.pos[r]) == m.values
    ensures !Tears(m.ids, r, Taken(m.s.recorded, m.s.counts, r))
  {
    hide Searching, Concat;
  }

  /** A run goes on with any step of the machine. */
  lemma RunGrows(q: Query, trace: seq<Machine>, m: Machine)
    requires IsRun(q, trace) && Moves(q, trace[|trace| - 1], m)
    ensures IsRun(q, trace + [m])
  {
    hide Moves, Inv;
  }

  lemma ReadRuns(q: Query, trace: seq<Machine>, r: nat, more: seq<Id>)
    requires trace != [] && IsRun(q, trace) && Shaped(trace[|trace| - 1]) && r < 2 && Decide(trace[|trace| - 1]) == Read(r)
    requires Enumerates(more, Asked(q, trace[|trace| - 1].s, r))
    ensures IsRun(q, trace + [AfterRead(trace[|trace| - 1], r, more)])
  {
    hide IsRun, Decide, AfterRead, Asked, Enumerates;
    assert Moves(q, trace[|trace| - 1], AfterRead(trace[|trace| - 1], r, more));
    RunGrows(q, trace, AfterRead(trace[|trace| - 1], r, more));
  }

  lemma FirstRuns(q: Query)
    requires Answerable(q)
    ensures IsRun(q, [First(q)])
  {
  }
}
