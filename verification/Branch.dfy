/** The iterator over a branch: a resumable breadth-first search of the directories below a
    root, driven through two bounded rings each read by two readers. It follows the machine of
    `BranchRuns` step by step.
 */
module Branch {
  import opened Wrappers
  import opened Forest
  import Memory
  import opened Ring
  import opened MultiRing
  import opened BranchSearch
  import opened BranchLinks
  import opened BranchRings
  import opened BranchRuns

  /** What a call of `branch_next_fsentries` gives: entries, or the end. */
  datatype Outcome = Batch(entries: seq<Id>) | Ended(end: End)

  datatype Continuation = Continue(stage: Stage) | Return(outcome: Outcome)

  datatype Item = Found(id: Id) | Last(end: End)

  ghost function LastOf(trace: seq<Machine>): Machine
    requires trace != []
  {
    trace[|trace| - 1]
  }

  /** A bound on the length of runs. */
  ghost function Limit(q: Query): nat {
    5 * Bound(q) + 3
  }

  /** `after` is one step longer and `entries` were found, or it stopped there. */
  ghost predicate Did(before: seq<Machine>, after: seq<Machine>, outcome: Option<Outcome>) {
    && before != [] && after != []
    && match outcome
       case None => Longer(before, after, [])
       case Some(Batch(entries)) => Longer(before, after, entries)
       case Some(Ended(end)) => after == before && Shaped(LastOf(after)) && Decide(LastOf(after)) == Stop(end)
  }

  ghost predicate Longer(before: seq<Machine>, after: seq<Machine>, entries: seq<Id>)
    requires before != [] && after != []
  {
    |after| == |before| + 1 && before <= after && LastOf(after).s.out == LastOf(before).s.out + entries
  }

  /** Reader `r` was served, or had nothing to read. */
  ghost predicate Served(before: seq<Machine>, after: seq<Machine>, r: nat, outcome: Option<Outcome>) {
    && before != [] && after != [] && Shaped(LastOf(before)) && r < 2
    && if HasWork(LastOf(before).s, r) then
         Did(before, after, outcome) && LastOf(after).stage == LastOf(before).stage
       else
         after == before && outcome == Some(Ended(Exhausted))
  }

  /** The machine is to serve reader `r` if that has something to read. */
  ghost predicate ToServe(m: Machine, r: nat) {
    Shaped(m) && r < 2 && (HasWork(m.s, r) ==> Decide(m) == Serve(m, r))
  }

  lemma NothingServed(q: Query, trace: seq<Machine>, r: nat)
    requires trace != [] && Inv(q, LastOf(trace)) && Shaped(LastOf(trace)) && r < 2
    ensures var m := LastOf(trace);
            if HasWork(m.s, r) then m.s.recorded[m.s.counts[r]..] != []
            else
              && m.s.recorded[m.s.counts[r]..] == [] && Served(trace, trace, r, Some(Ended(Exhausted)))
              && AfterTry(m.ids, r, Taken(m.s.recorded, m.s.counts, r)) == m.ids && m.s.counts[r := |m.s.recorded|] == m.s.counts
              && AfterAck(m.values, r, m.values.log - m.values.pos[r]) == m.values
  {
    hide Tears, Taken, Inv, AfterTry, AfterAck;
    if !HasWork(LastOf(trace).s, r) {
      NothingRead(q, LastOf(trace), r);
    }
  }

  lemma TornServed(q: Query, trace: seq<Machine>, r: nat)
    requires trace != [] && Inv(q, LastOf(trace)) && ToServe(LastOf(trace), r)
    requires Tears(LastOf(trace).ids, r, Taken(LastOf(trace).s.recorded, LastOf(trace).s.counts, r))
    ensures Served(trace, trace, r, Some(Ended(Torn)))
  {
    hide Tears, Taken, Inv;
    if !HasWork(LastOf(trace).s, r) {
      NothingRead(q, LastOf(trace), r);
    }
  }

  lemma ReadServed(q: Query, trace: seq<Machine>, r: nat, more: seq<Id>)
    requires trace != [] && IsRun(q, trace) && ToServe(LastOf(trace), r) && HasWork(LastOf(trace).s, r)
    requires !Tears(LastOf(trace).ids, r, Taken(LastOf(trace).s.recorded, LastOf(trace).s.counts, r))
    requires Enumerates(more, Asked(q, LastOf(trace).s, r))
    ensures var after := trace + [AfterRead(LastOf(trace), r, more)];
            IsRun(q, after) && Served(trace, after, r, if r == DIRECTORIES then None else Some(Batch(more)))
  {
    hide Tears, IsRun, Taken, AfterTry, AfterAck, Decide;
    ReadRuns(q, trace, r, more);
    assert LastOf(trace).s.out + [] == LastOf(trace).s.out;
  }

  /** Full rings: the larger reader is to be served. */
  lemma RoomServes(trace: seq<Machine>)
    requires trace != [] && Shaped(LastOf(trace)) && Decide(LastOf(trace)) == Room(LastOf(trace))
    ensures ToServe(LastOf(trace), Largest(LastOf(trace).ids))
  {
    hide Decide, Serve, Sight;
  }

  lemma RoomServed(before: seq<Machine>, after: seq<Machine>, r: nat, outcome: Option<Outcome>)
    requires before != [] && Shaped(LastOf(before)) && Decide(LastOf(before)) == Room(LastOf(before))
    requires r == Largest(LastOf(before).ids) && Served(before, after, r, outcome)
    ensures Did(before, after, if r == DIRECTORIES && outcome == Some(Ended(Exhausted)) then Some(Ended(Aborted)) else outcome)
    ensures after != [] && LastOf(after).stage == LastOf(before).stage
  {
    hide Sight, Tears;
  }

  /** Without a directory, one is taken or a reader served. */
  lemma FetchChooses(q: Query, trace: seq<Machine>)
    requires trace != [] && IsRun(q, trace) && Shaped(LastOf(trace)) && LastOf(trace).stage == FetchDirectory
    ensures var m := LastOf(trace);
            if m.s.directories != [] then
              var after := trace + [m.(s := AfterFetch(m.s), stage := RecordId)];
              IsRun(q, after) && Did(trace, after, None)
            else
              ToServe(m, DIRECTORIES) && (!HasWork(m.s, DIRECTORIES) ==> ToServe(m, FSENTRIES))
  {
    hide IsRun, Tears;
    var m := LastOf(trace);
    if m.s.directories != [] {
      var next := m.(s := AfterFetch(m.s), stage := RecordId);
      assert Moves(q, m, next);
      RunGrows(q, trace, next);
      assert m.s.out + [] == m.s.out;
    }
  }

  lemma FetchServed(before: seq<Machine>, after: seq<Machine>, r: nat, outcome: Option<Outcome>)
    requires before != [] && Served(before, after, r, outcome)
    requires LastOf(before).stage == FetchDirectory && LastOf(before).s.directories == []
    requires r == FSENTRIES ==> !HasWork(LastOf(before).s, DIRECTORIES)
    ensures after != [] && LastOf(after).stage == FetchDirectory
    ensures if r == DIRECTORIES && outcome == Some(Ended(Exhausted)) then
              after == before && !HasWork(LastOf(before).s, DIRECTORIES)
            else Did(before, after, outcome)
  {
    hide Tears;
  }

  lemma RecordIdChooses(q: Query, trace: seq<Machine>)
    requires trace != [] && IsRun(q, trace) && Shaped(LastOf(trace)) && LastOf(trace).stage == RecordId
    ensures var m := LastOf(trace);
            var id := m.s.directory.value;
            if m.ids.used + |id| <= m.ids.size then
              var after := trace + [m.(s := m.s.(pending := [id]), ids := AfterPush(m.ids, |id|), stage := RecordValue)];
              IsRun(q, after) && Did(trace, after, None)
            else
              && AfterPush(m.ids, |id|) == m.ids
              && if |id| > m.ids.size then Did(trace, trace, Some(Ended(Failed))) else Decide(m) == Room(m)
  {
    hide IsRun, Tears;
    var m := LastOf(trace);
    var id := m.s.directory.value;
    if m.ids.used + |id| <= m.ids.size {
      var next := m.(s := m.s.(pending := [id]), ids := AfterPush(m.ids, |id|), stage := RecordValue);
      assert Moves(q, m, next);
      RunGrows(q, trace, next);
      assert m.s.out + [] == m.s.out;
    }
  }

  lemma RecordValueChooses(q: Query, trace: seq<Machine>)
    requires trace != [] && IsRun(q, trace) && Shaped(LastOf(trace)) && LastOf(trace).stage == RecordValue
    ensures var m := LastOf(trace);
            if m.values.used + Memory.VALUE_SIZE <= m.values.size then
              var after := trace + [m.(s := AfterRecord(m.s), values := AfterPush(m.values, Memory.VALUE_SIZE), stage := FetchDirectory)];
              IsRun(q, after) && Did(trace, after, None)
            else AfterPush(m.values, Memory.VALUE_SIZE) == m.values && Decide(m) == Room(m)
  {
    hide IsRun, Tears;
    var m := LastOf(trace);
    if m.values.used + Memory.VALUE_SIZE <= m.values.size {
      var next := m.(s := AfterRecord(m.s), values := AfterPush(m.values, Memory.VALUE_SIZE), stage := FetchDirectory);
      assert Moves(q, m, next);
      RunGrows(q, trace, next);
      assert m.s.out + [] == m.s.out;
    }
  }

  class BranchIterator {
    const es: Entries
    const root: Id
    const matches: set<Id>
    const rings: Rings
    var directories: seq<Id>         // found, not fetched yet
    var directory: Option<Id>        // being recorded
    var data: Option<nat>            // address of its id in the id ring, once there
    var size: nat
    var fsentries: Option<seq<Id>>   // being returned
    ghost const q: Query
    ghost var trace: seq<Machine>    // the run so far
    ghost var given: seq<Id>         // everything that was returned

    ghost function Repr(): set<object> {
      {this, rings} + rings.IdRepr() + rings.ValueRepr()
    }

    ghost function M(): Machine
      requires trace != []
      reads this`trace
    {
      trace[|trace| - 1]
    }

    /** The fields are those of the last state of a run. */
    ghost predicate At()
      reads this`directories, this`directory, this`data, this`size, this`trace, rings, rings.IdRepr(), rings.ValueRepr()
    {
      && rings.Valid() && this !in rings.IdRepr() + rings.ValueRepr()
      && q.es == es && q.root == root && q.matches == matches && IsRun(q, trace)
      && M().ids == rings.ids.V() && M().values == rings.values.V()
      && M().s.recorded == rings.recorded && M().s.counts == rings.counts && M().s.pending == rings.pending
      && M().s.directory == directory && M().s.directories == directories
      && (M().stage == RecordValue && directory.Some? ==>
            data == Some(|Concat(rings.recorded)| % ID_RING_SIZE) && size == |directory.value|)
    }

    /** The stage to resume at is read off `directory` and `data`. */
    function Resume(): Stage
      reads this`directory, this`data
    {
      if directory.None? then FetchDirectory else if data.None? then RecordId else RecordValue
    }

    ghost predicate Valid()
      reads Repr()
    {
      At() && M().stage == Resume() && M().s.out == given + if fsentries.Some? then fsentries.value else []
    }

    lemma AtFacts()
      requires At()
      ensures |trace| > 0 && Inv(q, M()) && Shaped(M()) && |trace| <= Limit(q)
      ensures M().stage == FetchDirectory <==> directory.None?
      ensures M().stage == RecordValue ==> M().s.pending == [directory.value]
      ensures M().stage != RecordValue ==> M().s.pending == []
      ensures M().ids.size == ID_RING_SIZE && M().values.size == VALUE_RING_SIZE
    {
      hide Searching, Tracked, Bound, Rings.Valid, Moves;
      RunInv(q, trace, |trace| - 1);
      RunsAreShort(q, trace, |trace| - 1);
      InvParts(q, M());
    }

    lemma AtStands()
      requires At()
      ensures |trace| > 0 && IsRun(q, trace) && Inv(q, M()) && Shaped(M()) && q.matches == matches
    {
      AtFacts();
    }

    constructor (es: Entries, root: Id, matches: set<Id>, ghost depth: map<Id, nat>)
      requires Answerable(Query(es, depth, root, matches))
      ensures Valid() && fresh(Repr()) && given == [] && q == Query(es, depth, root, matches)
    {
      hide Rings.Valid, IsRun, Answerable;
      this.es, this.root, this.matches := es, root, matches;
      var r := new Rings();
      rings := r;
      directories, directory, data, size := [], Some(root), None, 0;
      fsentries := Some(if root in matches then [root] else []);
      q, trace, given := Query(es, depth, root, matches), [First(Query(es, depth, root, matches))], [];
      FirstRuns(Query(es, depth, root, matches));
    }

    /** Looks for subdirectories of what the first reader has not read. */
    method Recurse() returns (outcome: Option<Outcome>)
      requires At() && ToServe(M(), DIRECTORIES)
      modifies this`directories, this`trace, rings`counts, rings.ids, rings.ids.ring, rings.values, rings.values.ring
      ensures At() && Served(old(trace), trace, DIRECTORIES, outcome)
    {
      hide Rings.Valid, IsRun, Tears, AfterTry, AfterAck, Concat, Taken, Decide, Inv, Enumerates, Served, ToServe,
           SubdirectoriesOf, MatchesIn, Shaped;
      AtFacts();
      ghost var m := M();
      NothingServed(q, trace, DIRECTORIES);
      var dirs, torn := rings.ReadBatch(DIRECTORIES);
      if torn {
        TornServed(q, trace, DIRECTORIES);
        return Some(Ended(Torn));
      }
      if dirs == [] {
        return Some(Ended(Exhausted));
      }
      var found := Snapshot(SubdirectoriesOf(es, dirs));
      directories := directories + found;
      ReadServed(q, trace, DIRECTORIES, found);
      trace := trace + [AfterRead(m, DIRECTORIES, found)];
      return None;
    }

    /** The matching children of what the second reader has not read. */
    method NextFsentries() returns (outcome: Outcome)
      requires At() && ToServe(M(), FSENTRIES)
      modifies this`trace, rings`counts, rings.ids, rings.ids.ring, rings.values, rings.values.ring
      ensures At() && Served(old(trace), trace, FSENTRIES, Some(outcome))
    {
      hide Rings.Valid, IsRun, Tears, AfterTry, AfterAck, Concat, Taken, Decide, Inv, Enumerates, Served, ToServe,
           SubdirectoriesOf, MatchesIn, Shaped;
      AtFacts();
      ghost var m := M();
      NothingServed(q, trace, FSENTRIES);
      var dirs, torn := rings.ReadBatch(FSENTRIES);
      if torn {
        TornServed(q, trace, FSENTRIES);
        return Ended(Torn);
      }
      if dirs == [] {
        return Ended(Exhausted);
      }
      var found := Snapshot(MatchesIn(es, matches, dirs));
      ReadServed(q, trace, FSENTRIES, found);
      trace := trace + [AfterRead(m, FSENTRIES, found)];
      return Batch(found);
    }

    /** Serves the reader that seems further behind: one more search for directories (None), or a
        batch of entries. It may have nothing to read. */
    method MakeRoom() returns (outcome: Option<Outcome>)
      requires At() && Shaped(M()) && Decide(M()) == Room(M())
      modifies this`directories, this`trace, rings`counts, rings.ids, rings.ids.ring, rings.values, rings.values.ring
      ensures At() && Did(old(trace), trace, outcome) && M().stage == old(M()).stage
    {
      hide Rings.Valid, IsRun, Tears, Taken, Inv, Enumerates, Did;
      AtFacts();
      RoomServes(trace);
      var r := rings.LargestReader();
      if r == DIRECTORIES {
        outcome := Recurse();
        RoomServed(old(trace), trace, r, outcome);
        if outcome == Some(Ended(Exhausted)) {
          outcome := Some(Ended(Aborted));
        }
      } else {
        var batch := NextFsentries();
        outcome := Some(batch);
        RoomServed(old(trace), trace, r, outcome);
      }
    }

    /** What one stage leads to. */
    ghost predicate Went(before: seq<Machine>, step: Continuation)
      reads Repr()
    {
      match step
      case Continue(stage) => At() && Did(before, trace, None) && M().stage == stage
      case Return(outcome) => At() && Did(before, trace, Some(outcome)) && M().stage == Resume()
    }

    /** Fetches the next directory, after searching for more if none is left. */
    method Fetch() returns (step: Continuation)
      requires At() && M().stage == FetchDirectory
      modifies this`directories, this`directory, this`trace, rings`counts, rings.ids, rings.ids.ring, rings.values, rings.values.ring
      ensures Went(old(trace), step)
    {
      hide Rings.Valid, IsRun, Tears, Taken, Inv, Enumerates, Did, Decide;
      AtFacts();
      FetchChooses(q, trace);
      if directories != [] {
        trace := trace + [M().(s := AfterFetch(M().s), stage := RecordId)];
        directory, directories := Some(directories[0]), directories[1..];
        return Continue(RecordId);
      }
      var outcome := Recurse();
      FetchServed(old(trace), trace, DIRECTORIES, outcome);
      if outcome.None? {
        return Continue(FetchDirectory);
      }
      if outcome != Some(Ended(Exhausted)) {
        return Return(outcome.value);
      }
      var batch := NextFsentries();
      FetchServed(old(trace), trace, FSENTRIES, Some(batch));
      return Return(batch);
    }

    /** Puts the id of the directory in the id ring, or makes room there. */
    method PushId() returns (step: Continuation)
      requires At() && M().stage == RecordId
      modifies this`directories, this`data, this`size, this`trace, rings, rings.IdRepr(), rings.values, rings.values.ring
      ensures Went(old(trace), step)
    {
      hide Rings.Valid, IsRun, Inv, Did, Decide, Room, AfterPush, Concat, Shaped;
      AtFacts();
      RecordIdChooses(q, trace);
      var address, error := rings.RecordId(directory.value);
      if error.None? {
        data, size := Some(address), |directory.value|;
        trace := trace + [M().(s := M().s.(pending := [directory.value]), ids := AfterPush(M().ids, |directory.value|),
                               stage := RecordValue)];
        return Continue(RecordValue);
      }
      data := None;
      if error.value == EINVAL {
        return Return(Ended(Failed));
      }
      var room := MakeRoom();
      return if room.Some? then Return(room.value) else Continue(RecordId);
    }

    /** Puts the structure that points at the id in the value ring, or makes room there. */
    method PushValue() returns (step: Continuation)
      requires At() && M().stage == RecordValue
      modifies this`directories, this`directory, this`trace, rings, rings.IdRepr(), rings.ValueRepr()
      ensures Went(old(trace), step)
    {
      hide Rings.Valid, IsRun, Inv, Did, Decide, Room, AfterPush, Concat, Shaped;
      AtFacts();
      RecordValueChooses(q, trace);
      var error := rings.RecordValue(IdRef(data.value, size));
      if error.None? {
        directory := None;
        trace := trace + [M().(s := AfterRecord(M().s), values := AfterPush(M().values, Memory.VALUE_SIZE),
                               stage := FetchDirectory)];
        return Continue(FetchDirectory);
      }
      var room := MakeRoom();
      return if room.Some? then Return(room.value) else Continue(RecordValue);
    }

    /** The next batch of entries to return. It may have been interrupted anywhere between two
        records; it resumes there. */
    method BranchNextFsentries() returns (outcome: Outcome)
      requires At() && M().stage == Resume()
      modifies this`directories, this`directory, this`data, this`size, this`trace, rings, rings.IdRepr(), rings.ValueRepr()
      ensures At() && M().stage == Resume() && old(trace) <= trace
      ensures match outcome
              case Batch(entries) => |trace| > |old(trace)| && M().s.out == old(M()).s.out + entries
              case Ended(end) => M().s.out == old(M()).s.out && Shaped(M()) && Decide(M()) == Stop(end)
    {
      hide BranchIterator.At, Rings.Valid, IsRun, Decide, Inv, Bound, Shaped;
      var stage := Resume();
      AtFacts();
      while true
        invariant At() && M().stage == stage && old(trace) <= trace && M().s.out == old(M()).s.out
        invariant |trace| <= Limit(q)
        decreases Limit(q) - |trace|
      {
        ghost var before := trace;
        var step;
        match stage {
          case FetchDirectory => step := Fetch();
          case RecordId => step := PushId();
          case RecordValue => step := PushValue();
        }
        if step.Return? {
          return step.outcome;
        }
        stage := step.stage;
        AtFacts();
      }
    }

    /** One entry of the branch, or the end. */
    method Next() returns (item: Item)
      requires Valid()
      modifies this, rings, rings.IdRepr(), rings.ValueRepr()
      ensures Valid() && old(trace) <= trace
      ensures given == if item.Found? then old(given) + [item.id] else old(given)
      ensures item.Last? ==> given == M().s.out && Shaped(M()) && Decide(M()) == Stop(item.end)
      decreases Limit(q) - |trace|, fsentries.Some?
    {
      hide BranchIterator.At, Rings.Valid, IsRun, Decide, Shaped, Inv, Bound;
      AtFacts();
      if fsentries.None? {
        var outcome := BranchNextFsentries();
        if outcome.Ended? {
          return Last(outcome.end);
        }
        AtFacts();
        fsentries := Some(outcome.entries);
      }
      if fsentries.value != [] {
        var x := fsentries.value[0];
        fsentries, given := Some(fsentries.value[1..]), given + [x];
        return Found(x);
      }
      fsentries := None;
      item := Next();
    }
  }

  lemma GivenBound(q: Query, trace: seq<Machine>, given: seq<Id>)
    requires trace != [] && Inv(q, LastOf(trace)) && given <= LastOf(trace).s.out
    ensures |given| <= |q.matches|
  {
    hide Tracked;
    assert forall x :: x in given ==> x in LastOf(trace).s.out;
    DistinctBound(given, q.matches);
  }

  /** Nothing is returned twice, and nothing that does not match. */
  lemma OutMatches(q: Query, trace: seq<Machine>)
    requires trace != [] && Inv(q, LastOf(trace))
    ensures Distinct(LastOf(trace).s.out) && forall x :: x in LastOf(trace).s.out ==> x in q.matches
  {
    hide Tracked;
  }

  /** The iterator called until it ends. What it does is a run of the machine. */
  method Drain(es: Entries, root: Id, matches: set<Id>, ghost depth: map<Id, nat>)
    returns (entries: seq<Id>, end: End, ghost trace: seq<Machine>)
    requires Answerable(Query(es, depth, root, matches))
    ensures var q := Query(es, depth, root, matches);
            && trace != [] && IsRun(q, trace) && Inv(q, LastOf(trace)) && Shaped(LastOf(trace))
            && Decide(LastOf(trace)) == Stop(end) && entries == LastOf(trace).s.out
    ensures Distinct(entries) && forall x :: x in entries ==> x in matches
  {
    hide BranchIterator.At, BranchIterator.Resume, IsRun, Decide, Shaped, Inv, Answerable, Bound;
    var it := new BranchIterator(es, root, matches, depth);
    entries := [];
    it.AtStands();
    while true
      invariant it.Valid() && fresh(it.Repr()) && it.q == Query(es, depth, root, matches) && entries == it.given
      decreases |matches| - |entries|
    {
      var item := it.Next();
      it.AtStands();
      if item.Last? {
        OutMatches(it.q, it.trace);
        return entries, item.end, it.trace;
      }
      entries := entries + [item.id];
      GivenBound(it.q, it.trace, it.given);
    }
  }

  /** The whole traversal, whatever the shape of the tree and wherever the rings fill up. It is right
      while every reader of the id ring sees what it has to read, thus if that ring is never exactly
      full, thus if no directories of the branch fill it. In any case an end is true exactly if no
      directory is left over; nothing in such a directory is returned. */
  method Traverse(es: Entries, root: Id, matches: set<Id>, ghost depth: map<Id, nat>)
    returns (entries: seq<Id>, end: End, ghost trace: seq<Machine>)
    requires Answerable(Query(es, depth, root, matches))
    ensures var q := Query(es, depth, root, matches);
            && trace != [] && IsRun(q, trace) && Shaped(LastOf(trace)) && Decide(LastOf(trace)) == Stop(end)
            && entries == LastOf(trace).s.out
    ensures var q := Query(es, depth, root, matches);
            && (NoExactFill(es, depth, root) ==> NeverFull(trace))
            && (NeverFull(trace) ==> AlwaysSees(trace))
            && (AlwaysSees(trace) ==> Right(q, end, entries))
    ensures NoExactFill(es, depth, root) ==> Right(Query(es, depth, root, matches), end, entries)
    ensures Distinct(entries) && forall x :: x in entries ==> x in matches
    ensures var q := Query(es, depth, root, matches);
            && (end == Failed ==> Oversized(q))
            && (end == Exhausted && LastOf(trace).s.directory.None? ==> Right(q, end, entries))
            && (LastOf(trace).s.directory.Some? ==>
                  var d := LastOf(trace).s.directory.value;
                  && BranchDirectory(q, d)
                  && forall x :: x in matches && es[x].parent == d ==> x in Answer(q) && x !in entries)
  {
    hide IsRun, Decide, NoExactFill, Oversized, Inv, Above, NeverFull, AlwaysSees;
    ghost var q := Query(es, depth, root, matches);
    entries, end, trace := Drain(es, root, matches, depth);
    if !NeverFull(trace) {
      FullNeedsExactFill(q, trace);
    } else {
      NeverFullSees(q, trace);
    }
    if AlwaysSees(trace) {
      SeeingIsRight(q, trace);
    }
    if end == Failed {
      FailedEnd(q, LastOf(trace));
    }
    if LastOf(trace).s.directory.Some? {
      CutShort(q, LastOf(trace));
    } else if end == Exhausted {
      TrueEnd(q, LastOf(trace));
    }
  }
}
