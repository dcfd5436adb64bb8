/** What becomes of a traversal after its id ring was full to the last byte and both readers read it
    all: their flags hide from them what is recorded next.
 */
module BranchFull {
  import opened Forest
  import opened MultiRing
  import opened BranchSearch
  import opened BranchLinks
  import opened BranchRuns

  // ------------------------------------------------------------------ two flagged readers

  /** Both readers of the id ring stand flagged at its head, at byte `base` of the history. */
  ghost predicate BothFlagged(m: Machine, base: nat) {
    && Shaped(m) && m.ids.pos == [base, base] && m.ids.log - m.ids.used == base && m.ids.used < m.ids.size
    && m.ids.readers[0].starved && m.ids.readers[1].starved
  }

  /** They see nothing, whatever is recorded. */
  lemma FlaggedSight(q: Query, m: Machine, base: nat)
    requires Inv(q, m) && BothFlagged(m, base)
    ensures Sight(m.ids, 0) == Sight(m.ids, 1) == 0 && Largest(m.ids) == FSENTRIES
    ensures forall r, n: nat :: 0 <= r < 2 ==> AfterTry(m.ids, r, n) == m.ids && !Tears(m.ids, r, n)
  {
    hide Searching, Sight;
    InvParts(q, m);
    SightIs(m.ids, 0);
    SightIs(m.ids, 1);
  }

  /** No ack goes through and no flag is cleared, unless the ring is full once more. */
  lemma FlaggedStep(q: Query, m: Machine, m': Machine, base: nat)
    requires Inv(q, m) && BothFlagged(m, base) && Moves(q, m, m') && m'.ids.used < m'.ids.size
    ensures BothFlagged(m', base)
  {
    hide Searching, Tracked, Sight, AfterTry, Tears;
    StepInv(q, m, m');
    InvShaped(q, m');
    FlaggedSight(q, m, base);
    if Decide(m).Read? {
      ServesUnread(m);
    }
  }

  /** Directories among others take no more bytes than all of them. */
  lemma {:induction false} ConcatWithin(dirs: seq<Id>, all: seq<Id>)
    requires Distinct(dirs) && forall x :: x in dirs ==> x in all
    ensures |Concat(dirs)| <= |Concat(all)|
  {
    if dirs != [] {
      var n := |dirs| - 1;
      assert dirs[n] in dirs;
      var k :| 0 <= k < |all| && all[k] == dirs[n];
      var rest := all[..k] + all[k + 1..];
      forall x | x in dirs[..n] ensures x in rest {
        assert x in dirs;
        var j :| 0 <= j < |all| && all[j] == x;
        assert x == if j < k then all[..k][j] else all[k + 1..][j - k - 1];
      }
      ConcatWithin(dirs[..n], rest);
      assert all == all[..k] + ([all[k]] + all[k + 1..]);
      ConcatAppend(all[..k], [all[k]] + all[k + 1..]);
      ConcatAppend([all[k]], all[k + 1..]);
      ConcatAppend(all[..k], all[k + 1..]);
      assert Concat([all[k]]) == all[k];
    }
  }

  /** Such a search stops with every directory recorded only if their ids fit in what the ring had
      left; if it stops otherwise, a directory is left over. */
  lemma FlaggedStop(q: Query, m: Machine, base: nat)
    requires Inv(q, m) && BothFlagged(m, base) && Decide(m).Stop?
    ensures TreeShaped(q.es, q.depth) && (Decide(m) == Stop(Exhausted) || (Decide(m) == Stop(Failed) && m.s.directory.Some?))
    ensures m.s.directory.None? ==>
              forall dirs :: BranchDirectories(q.es, q.depth, q.root, dirs) ==> |Concat(dirs)| < base + ID_RING_SIZE
  {
    hide Sight, AfterTry, Tears, Concat, Emitted, Explored, Above;
    FlaggedSight(q, m, base);
    if m.s.directory.None? {
      TrueEndIff(q, m);
      assert m.s.recorded + m.s.pending == m.s.recorded;
      forall dirs | BranchDirectories(q.es, q.depth, q.root, dirs) ensures |Concat(dirs)| < base + ID_RING_SIZE {
        forall x | x in dirs ensures x in m.s.recorded {
          assert BranchDirectory(q, x);
        }
        ConcatWithin(dirs, m.s.recorded);
      }
    }
  }

  lemma {:induction false} StaysFlagged(q: Query, trace: seq<Machine>, i: nat, j: nat, base: nat)
    requires IsRun(q, trace) && i <= j < |trace| && BothFlagged(trace[i], base)
    requires forall k :: i <= k <= j ==> trace[k].ids.used < trace[k].ids.size
    ensures BothFlagged(trace[j], base)
    decreases j
  {
    hide BothFlagged, Moves, Inv;
    if i < j {
      StaysFlagged(q, trace, i, j - 1, base);
      RunInv(q, trace, j - 1);
      assert Moves(q, trace[j - 1], trace[j - 1 + 1]);
      FlaggedStep(q, trace[j - 1], trace[j], base);
    }
  }

  /** Once both readers are flagged, and unless the ring is full again, a search of a branch whose
      ids are too many for what the ring has left loses a directory and all that is in it. */
  lemma FlaggedLoses(q: Query, trace: seq<Machine>, i: nat, base: nat, dirs: seq<Id>)
    requires IsRun(q, trace) && i < |trace| && BothFlagged(trace[i], base)
    requires forall k :: i <= k < |trace| ==> trace[k].ids.used < trace[k].ids.size
    requires Shaped(trace[|trace| - 1]) && Decide(trace[|trace| - 1]).Stop?
    requires TreeShaped(q.es, q.depth) && BranchDirectories(q.es, q.depth, q.root, dirs) && base + ID_RING_SIZE <= |Concat(dirs)|
    ensures var s := trace[|trace| - 1].s;
            && s.directory.Some? && BranchDirectory(q, s.directory.value) && s.directory.value !in s.recorded
            && forall x :: x in q.matches && q.es[x].parent == s.directory.value ==> x in Answer(q) && x !in s.out
  {
    hide BothFlagged, Moves, Inv, Decide, Concat, Shaped;
    var n := |trace| - 1;
    StaysFlagged(q, trace, i, n, base);
    RunInv(q, trace, n);
    FlaggedStop(q, trace[n], base);
    CutShort(q, trace[n]);
  }

  /** ... at the latest when the next id does not fit. */
  ghost predicate Refused(m: Machine, base: nat) {
    && BothFlagged(m, base) && m.stage == RecordId
    && m.ids.used + |m.s.directory.value| > m.ids.size >= |m.s.directory.value|
  }

  lemma RefusedStep(q: Query, m: Machine, base: nat)
    requires Inv(q, m) && Refused(m, base)
    ensures Decide(m) == if HasWork(m.s, FSENTRIES) then Read(FSENTRIES) else Stop(Exhausted)
    ensures forall m' :: Moves(q, m, m') ==>
              Refused(m', base) && !HasWork(m'.s, FSENTRIES)
              && m'.s.directory == m.s.directory && m'.s.recorded == m.s.recorded && m'.s.directories == m.s.directories
  {
    hide Searching, Tracked, Sight, AfterTry, Tears;
    FlaggedSight(q, m, base);
    forall m' | Moves(q, m, m')
      ensures Refused(m', base) && !HasWork(m'.s, FSENTRIES)
              && m'.s.directory == m.s.directory && m'.s.recorded == m.s.recorded && m'.s.directories == m.s.directories
    {
      StepInv(q, m, m');
      InvShaped(q, m');
    }
  }

  /** Then at most one more batch of entries is returned, and the end with the directory left, and
      with it every directory that was found and not fetched. */
  lemma RefusedEnds(q: Query, trace: seq<Machine>, i: nat, base: nat)
    requires IsRun(q, trace) && i < |trace| && Refused(trace[i], base)
    ensures |trace| <= i + 2
    ensures var m, s := trace[|trace| - 1], trace[i].s;
            && Shaped(m) && (Decide(m) == Stop(Exhausted) || Decide(m) == Read(FSENTRIES))
            && m.s.directory == s.directory && m.s.recorded == s.recorded && m.s.directories == s.directories
  {
    hide Moves, Inv, Decide, Refused;
    RunInv(q, trace, i);
    RefusedStep(q, trace[i], base);
    if |trace| > i + 1 {
      assert Moves(q, trace[i], trace[i + 1]);
      RunInv(q, trace, i + 1);
      RefusedStep(q, trace[i + 1], base);
      if |trace| > i + 2 {
        assert Moves(q, trace[i + 1], trace[i + 1 + 1]);
        StopsThere(q, trace[i + 1], trace[i + 2]);
      }
    }
  }

  lemma StopsThere(q: Query, m: Machine, m': Machine)
    requires Moves(q, m, m')
    ensures Shaped(m) && !Decide(m).Stop?
  {
  }
}
