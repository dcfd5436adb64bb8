/** Two short runs that end otherwise than with ENODATA, once the id ring was full to the last byte.

    The first tears the id ring: an ack lets the ring drop an id which the other reader has not
    read. A root of 32 bytes and a directory of 16352 fill the ring; the reader of entries is served
    first and flagged, then the other one reads the rest, and the next id is visible to one only.

    The second violates an assertion: a push is refused, and the reader that seems to be further
    behind has nothing to read. It was refused an ack while it was flagged, and the ring being full
    once more made it see those bytes again.
 */
module BranchEnds {
  import opened Wrappers
  import opened Forest
  import opened MultiRing
  import opened BranchLinks
  import opened BranchRuns

  function IdOf(size: nat, b: byte): (id: Id)
    requires 0 < size
    ensures |id| == size && id[0] == b
  {
    seq(size, _ => b)
  }

  const R: Id := IdOf(32, 0)
  const X: Id := IdOf(16352, 1)
  const Y: Id := IdOf(33, 2)

  /** Two directories in a root. */
  ghost function Small(): Query {
    Query(map[R := Entry([], "r", true), X := Entry(R, "x", true), Y := Entry(R, "y", true)],
          map[R := 0, X := 1, Y := 1], R, {})
  }

  function Pair(size: nat, log: nat, used: nat, a: Reader, b: Reader, p: nat, q: nat): View {
    View(size, log, used, [a, b], [p, q])
  }

  lemma PairAck(v: View, a: Reader, b: Reader, p: nat, q: nat, n: nat)
    requires v.readers == [a, b] && v.pos == [p, q] && 0 < v.size && p <= v.log && q <= v.log && v.used <= v.log && 0 < n
    ensures p + n <= v.log ==>
              AfterAck(v, 0, n) == Pair(v.size, v.log, v.log - Lesser(p + n, q),
                                        Reader((p + n) % v.size, a.starved || p + n == v.log - v.used + v.size), b, p + n, q)
    ensures q + n <= v.log ==>
              AfterAck(v, 1, n) == Pair(v.size, v.log, v.log - Lesser(p, q + n), a,
                                        Reader((q + n) % v.size, b.starved || q + n == v.log - v.used + v.size), p, q + n)
  {
    hide Min;
    MinOfPair([p + n, q]);
    MinOfPair([p, q + n]);
    assert v.pos[0 := p + n] == [p + n, q] && v.pos[1 := q + n] == [p, q + n];
  }

  function Unseen(head: nat): Reader {
    Reader(head, false)
  }

  /** The id ring after each change ... */
  function Ids(k: nat): View {
    if k == 0 then EmptyView(ID_RING_SIZE)
    else if k == 1 then Pair(ID_RING_SIZE, 32, 32, Unseen(0), Unseen(0), 0, 0)
    else if k == 2 then Pair(ID_RING_SIZE, 32, 32, Unseen(32), Unseen(0), 32, 0)
    else if k == 3 then Pair(ID_RING_SIZE, 16384, 16384, Unseen(32), Unseen(0), 32, 0)
    else if k == 4 then Pair(ID_RING_SIZE, 16384, 16352, Unseen(32), Reader(0, true), 32, 16384)
    else if k == 5 then Pair(ID_RING_SIZE, 16384, 0, Unseen(0), Reader(0, true), 16384, 16384)
    else Pair(ID_RING_SIZE, 16417, 33, Unseen(0), Reader(0, true), 16384, 16384)
  }

  /** ... and the value ring. */
  function Values(k: nat): View {
    if k == 0 then EmptyView(VALUE_RING_SIZE)
    else if k == 1 then Pair(VALUE_RING_SIZE, 24, 24, Unseen(0), Unseen(0), 0, 0)
    else if k == 2 then Pair(VALUE_RING_SIZE, 24, 24, Unseen(24), Unseen(0), 24, 0)
    else if k == 3 then Pair(VALUE_RING_SIZE, 48, 48, Unseen(24), Unseen(0), 24, 0)
    else if k == 4 then Pair(VALUE_RING_SIZE, 48, 24, Unseen(24), Unseen(48), 24, 48)
    else if k == 5 then Pair(VALUE_RING_SIZE, 48, 0, Unseen(48), Unseen(48), 48, 48)
    else Pair(VALUE_RING_SIZE, 72, 24, Unseen(48), Unseen(48), 48, 48)
  }

  function Recording(recorded: seq<Id>, counts: seq<nat>, directory: Id, directories: seq<Id>, ids: View, values: View): Machine {
    Machine(State(recorded, counts, [], Some(directory), directories, []), RecordId, ids, values)
  }

  function Fetching(recorded: seq<Id>, counts: seq<nat>, directories: seq<Id>, ids: View, values: View): Machine {
    Machine(State(recorded, counts, [], None, directories, []), FetchDirectory, ids, values)
  }

  // ------------------------------------------------------------------ steps

  ghost predicate Reachable(q: Query, m: Machine) {
    exists trace :: trace != [] && IsRun(q, trace) && trace[|trace| - 1] == m
  }

  lemma Reach(q: Query, m: Machine, m': Machine)
    requires Reachable(q, m) && Moves(q, m, m')
    ensures Reachable(q, m')
  {
    hide IsRun, Moves;
    var trace :| trace != [] && IsRun(q, trace) && trace[|trace| - 1] == m;
    RunGrows(q, trace, m');
    assert (trace + [m'])[|trace + [m']| - 1] == m';
  }

  /** A directory that fits is recorded, in both rings. */
  lemma Records(q: Query, recorded: seq<Id>, counts: seq<nat>, id: Id, directories: seq<Id>, ids: View, values: View)
    requires var m := Recording(recorded, counts, id, directories, ids, values);
             Shaped(m) && Reachable(q, m)
    requires ids.used + |id| <= ids.size && values.used + 24 <= values.size
    ensures Reachable(q, Fetching(recorded + [id], counts, directories, AfterPush(ids, |id|), AfterPush(values, 24)))
  {
    hide Reachable, Sight, Tears, Taken;
    var m := Recording(recorded, counts, id, directories, ids, values);
    var pushed := Machine(State(recorded, counts, [id], Some(id), directories, []), RecordValue, AfterPush(ids, |id|), values);
    Reach(q, m, pushed);
    Reach(q, pushed, Fetching(recorded + [id], counts, directories, AfterPush(ids, |id|), AfterPush(values, 24)));
  }

  lemma Takes(q: Query, recorded: seq<Id>, counts: seq<nat>, id: Id, directories: seq<Id>, ids: View, values: View)
    requires Shaped(Fetching(recorded, counts, [id] + directories, ids, values))
    requires Reachable(q, Fetching(recorded, counts, [id] + directories, ids, values))
    ensures Reachable(q, Recording(recorded, counts, id, directories, ids, values))
  {
    hide Reachable, Sight, Tears, Taken;
    Reach(q, Fetching(recorded, counts, [id] + directories, ids, values), Recording(recorded, counts, id, directories, ids, values));
  }

  lemma Reads(q: Query, m: Machine, r: nat, more: seq<Id>)
    requires Shaped(m) && Reachable(q, m) && r < 2 && Decide(m) == Read(r) && Enumerates(more, Asked(q, m.s, r))
    ensures Reachable(q, AfterRead(m, r, more))
  {
    hide Reachable, Decide, Enumerates, Asked, AfterRead;
    assert Moves(q, m, AfterRead(m, r, more));
    Reach(q, m, AfterRead(m, r, more));
  }

  /** What the readers take. */
  lemma Takings()
    ensures Taken([R], [0, 0], 0) == 32 && Taken([R, X], [1, 0], 1) == 16384 && Taken([R, X], [1, 2], 0) == 16352
    ensures Taken([R, X, Y], [2, 2], 0) == 33
  {
    hide IdOf;
    assert [R, X, Y][..3] == [R, X, Y] && [R, X, Y][..2] == [R, X] && [R, X, Y][..1] == [R] && [R, X, Y][..0] == [];
    assert [R, X][..2] == [R, X] && [R, X][..1] == [R] && [R, X][..0] == [] && [R][..1] == [R] && [R][..0] == [];
  }

  // ------------------------------------------------------------------ the first run

  lemma SmallAnswerable()
    ensures Answerable(Small()) && R != X && R != Y && X != Y
  {
    assert |R| == 32 && |X| == 16352 && |Y| == 33;
  }

  /** The root is recorded and searched. */
  lemma RootSearched()
    ensures Reachable(Small(), Fetching([R], [1, 0], [X, Y], Ids(2), Values(2)))
  {
    hide IdOf, Taken, Reachable;
    SmallAnswerable();
    assert Reachable(Small(), First(Small())) by { FirstReachable(Small()); }
    Records(Small(), [], [0, 0], R, [], Ids(0), Values(0));
    assert [] + [R] == [R];
    RootRead();
  }

  lemma FirstReachable(q: Query)
    requires Answerable(q)
    ensures Reachable(q, First(q))
  {
    hide IsRun;
    FirstRuns(q);
    assert [First(q)][|[First(q)]| - 1] == First(q);
  }

  lemma RootRead()
    requires Reachable(Small(), Fetching([R], [0, 0], [], Ids(1), Values(1)))
    ensures Reachable(Small(), Fetching([R], [1, 0], [X, Y], Ids(2), Values(2)))
  {
    hide IdOf, Taken, Reachable, AfterAck;
    SmallAnswerable();
    var m := Fetching([R], [0, 0], [], Ids(1), Values(1));
    Takings();
    assert [R][0..] == [R];
    Reads(Small(), m, 0, [X, Y]);
    PairAck(m.ids, Unseen(0), Unseen(0), 0, 0, 32);
    PairAck(m.values, Unseen(0), Unseen(0), 0, 0, 24);
    assert [0, 0][0 := 1] == [1, 0] && [] + [X, Y] == [X, Y];
    assert AfterRead(m, 0, [X, Y]) == Fetching([R], [1, 0], [X, Y], Ids(2), Values(2));
  }

  /** The second directory fills the ring; the third is refused, and the entries are read. */
  lemma EntriesRead()
    ensures Reachable(Small(), Recording([R, X], [1, 2], Y, [], Ids(4), Values(4)))
  {
    hide IdOf, Taken, Reachable, AfterAck, Sight;
    SmallAnswerable();
    RootSearched();
    assert [X] + [Y] == [X, Y] && [Y] + [] == [Y] && [R] + [X] == [R, X];
    Takes(Small(), [R], [1, 0], X, [Y], Ids(2), Values(2));
    Records(Small(), [R], [1, 0], X, [Y], Ids(2), Values(2));
    assert ClearFlags([Unseen(32), Unseen(0)]) == [Unseen(32), Unseen(0)];
    Takes(Small(), [R, X], [1, 0], Y, [], Ids(3), Values(3));
    FirstRefusal();
  }

  lemma FirstRefusal()
    requires Reachable(Small(), Recording([R, X], [1, 0], Y, [], Ids(3), Values(3)))
    ensures Reachable(Small(), Recording([R, X], [1, 2], Y, [], Ids(4), Values(4)))
  {
    hide IdOf, Taken, Reachable, AfterAck;
    SmallAnswerable();
    var m := Recording([R, X], [1, 0], Y, [], Ids(3), Values(3));
    Takings();
    assert [R, X][0..] == [R, X];
    Reads(Small(), m, 1, []);
    PairAck(m.ids, Unseen(32), Unseen(0), 32, 0, 16384);
    PairAck(m.values, Unseen(24), Unseen(0), 24, 0, 48);
    assert [1, 0][1 := 2] == [1, 2];
    assert AfterRead(m, 1, []) == Recording([R, X], [1, 2], Y, [], Ids(4), Values(4));
  }

  /** It is refused again, and the directories are read. */
  lemma SecondRefusal()
    requires Reachable(Small(), Recording([R, X], [1, 2], Y, [], Ids(4), Values(4)))
    ensures Reachable(Small(), Recording([R, X], [2, 2], Y, [], Ids(5), Values(5)))
  {
    hide IdOf, Taken, Reachable, AfterAck;
    SmallAnswerable();
    var m := Recording([R, X], [1, 2], Y, [], Ids(4), Values(4));
    Takings();
    assert [R, X][1..] == [X];
    Reads(Small(), m, 0, []);
    PairAck(m.ids, Unseen(32), Reader(0, true), 32, 16384, 16352);
    PairAck(m.values, Unseen(24), Unseen(48), 24, 48, 24);
    assert [1, 2][0 := 2] == [2, 2];
    assert AfterRead(m, 0, []) == Recording([R, X], [2, 2], Y, [], Ids(5), Values(5));
  }

  lemma TornThere()
    ensures var m := Fetching([R, X, Y], [2, 2], [], Ids(6), Values(6));
            Shaped(m) && Decide(m) == Stop(Torn)
  {
    hide IdOf, Taken;
    var m := Fetching([R, X, Y], [2, 2], [], Ids(6), Values(6));
    Takings();
    assert m.ids.pos[1] == m.ids.log - m.ids.used && m.ids.readers[1].starved && !m.ids.readers[0].starved;
    assert Tears(m.ids, 0, 33);
  }

  /** Then it is recorded; the reader of directories would drop its id before the other has read it. */
  lemma TornIsReached()
    ensures exists trace :: trace != [] && IsRun(Small(), trace)
                            && Shaped(trace[|trace| - 1]) && Decide(trace[|trace| - 1]) == Stop(Torn)
  {
    hide IdOf, Taken, IsRun, Decide, Shaped;
    EntriesRead();
    SecondRefusal();
    LastRecorded();
    TornThere();
  }

  lemma LastRecorded()
    requires Reachable(Small(), Recording([R, X], [2, 2], Y, [], Ids(5), Values(5)))
    ensures Reachable(Small(), Fetching([R, X, Y], [2, 2], [], Ids(6), Values(6)))
  {
    hide IdOf, Taken, Reachable;
    Records(Small(), [R, X], [2, 2], Y, [], Ids(5), Values(5));
    assert [R, X] + [Y] == [R, X, Y];
  }

  // ------------------------------------------------------------------ the second run

  const X1: Id := IdOf(16352, 1)
  const Y1: Id := IdOf(16352, 2)
  const Z: Id := IdOf(32, 3)
  const W: Id := IdOf(33, 4)

  /** A root, a directory in it, one in that, and two in that. */
  ghost function Nested(): Query {
    Query(map[R := Entry([], "r", true), X1 := Entry(R, "x", true), Y1 := Entry(X1, "y", true),
              Z := Entry(Y1, "z", true), W := Entry(Y1, "w", true)],
          map[R := 0, X1 := 1, Y1 := 2, Z := 3, W := 3], R, {})
  }

  lemma NestedAnswerable()
    ensures Answerable(Nested())
  {
    hide IdOf;
    NestedDistinct();
  }

  lemma NestedDistinct()
    ensures R != X1 && R != Y1 && R != Z && R != W && X1 != Y1 && X1 != Z && X1 != W && Y1 != Z && Y1 != W && Z != W
    ensures [] !in [R, X1, Y1, Z, W]
  {
    hide IdOf;
    assert |R| == |Z| == 32 && |X1| == |Y1| == 16352 && |W| == 33;
    assert R[0] == 0 && X1[0] == 1 && Y1[0] == 2 && Z[0] == 3;
  }

  function Flagged(head: nat): Reader {
    Reader(head, true)
  }

  /** The id ring after each change ... */
  function Ids1(k: nat): View {
    if k <= 3 then Ids(k)
    else if k == 4 then Pair(ID_RING_SIZE, 16384, 16384, Flagged(0), Unseen(0), 16384, 0)
    else if k == 5 then Pair(ID_RING_SIZE, 16384, 0, Flagged(0), Flagged(0), 16384, 16384)
    else if k <= 7 then Pair(ID_RING_SIZE, 32736, 16352, Flagged(0), Flagged(0), 16384, 16384)
    else if k == 8 then Pair(ID_RING_SIZE, 32768, 16384, Unseen(0), Unseen(0), 16384, 16384)
    else if k == 9 then Pair(ID_RING_SIZE, 32768, 16384, Unseen(0), Flagged(0), 16384, 32768)
    else Pair(ID_RING_SIZE, 32768, 16352, Unseen(32), Flagged(0), 16416, 32768)
  }

  /** ... and the value ring. */
  function Values1(k: nat): View {
    if k <= 3 then Values(k)
    else if k == 4 then Pair(VALUE_RING_SIZE, 48, 48, Unseen(48), Unseen(0), 48, 0)
    else if k == 5 then Pair(VALUE_RING_SIZE, 48, 0, Unseen(48), Unseen(48), 48, 48)
    else if k == 6 then Pair(VALUE_RING_SIZE, 72, 24, Unseen(48), Unseen(48), 48, 48)
    else if k == 7 then Pair(VALUE_RING_SIZE, 72, 24, Unseen(72), Unseen(48), 72, 48)
    else if k == 8 then Pair(VALUE_RING_SIZE, 96, 48, Unseen(72), Unseen(48), 72, 48)
    else if k == 9 then Pair(VALUE_RING_SIZE, 96, 24, Unseen(72), Unseen(96), 72, 96)
    else Pair(VALUE_RING_SIZE, 96, 0, Unseen(96), Unseen(96), 96, 96)
  }

  lemma Takings1()
    ensures Taken([R], [0, 0], 0) == 32 && Taken([R, X1], [1, 0], 0) == 16352 && Taken([R, X1], [2, 0], 1) == 16384
    ensures Taken([R, X1, Y1], [2, 2], 0) == 16352
    ensures Taken([R, X1, Y1, Z], [3, 2], 1) == 16384 && Taken([R, X1, Y1, Z], [3, 4], 0) == 32
  {
    hide IdOf;
    var all := [R, X1, Y1, Z];
    assert all[..4] == all && all[..3] == [R, X1, Y1] && all[..2] == [R, X1] && all[..1] == [R] && all[..0] == [];
    assert [R, X1, Y1][..3] == [R, X1, Y1] && [R, X1, Y1][..2] == [R, X1] && [R, X1, Y1][..1] == [R] && [R, X1, Y1][..0] == [];
    assert [R, X1][..2] == [R, X1] && [R, X1][..1] == [R] && [R, X1][..0] == [] && [R][..1] == [R] && [R][..0] == [];
  }

  /** The root and what is in it are recorded; the ring is full. */
  lemma NestedFills()
    ensures Reachable(Nested(), Fetching([R, X1], [1, 0], [], Ids1(3), Values1(3)))
  {
    hide IdOf, Taken, Reachable, AfterAck, Sight;
    assert [X1] + [] == [X1] && [R] + [X1] == [R, X1];
    NestedRoot();
    Takes(Nested(), [R], [1, 0], X1, [], Ids(2), Values(2));
    Records(Nested(), [R], [1, 0], X1, [], Ids(2), Values(2));
    assert ClearFlags([Unseen(32), Unseen(0)]) == [Unseen(32), Unseen(0)];
  }

  lemma NestedStart()
    ensures Reachable(Nested(), Fetching([R], [0, 0], [], Ids(1), Values(1)))
  {
    hide IdOf, Taken, Reachable, AfterAck, Sight;
    NestedAnswerable();
    FirstReachable(Nested());
    Records(Nested(), [], [0, 0], R, [], Ids(0), Values(0));
    assert [] + [R] == [R];
  }

  lemma NestedRoot()
    ensures Reachable(Nested(), Fetching([R], [1, 0], [X1], Ids(2), Values(2)))
  {
    hide IdOf, Taken, Reachable, AfterAck;
    NestedStart();
    var m := Fetching([R], [0, 0], [], Ids(1), Values(1));
    Takings1();
    NestedSearch(0, [R], R, [X1]);
    Reads(Nested(), m, 0, [X1]);
    PairAck(m.ids, Unseen(0), Unseen(0), 0, 0, 32);
    PairAck(m.values, Unseen(0), Unseen(0), 0, 0, 24);
    assert [0, 0][0 := 1] == [1, 0] && [] + [X1] == [X1];
    assert AfterRead(m, 0, [X1]) == Fetching([R], [1, 0], [X1], Ids(2), Values(2));
  }

  /** What a search of one directory finds. */
  lemma NestedSearch(c: nat, recorded: seq<Id>, d: Id, more: seq<Id>)
    requires c < |recorded| && recorded[c..] == [d]
    requires (d == R && more == [X1]) || (d == X1 && more == [Y1]) || (d == Y1 && more == [Z, W]) || (d == Z && more == [])
    ensures Enumerates(more, SubdirectoriesOf(Nested().es, recorded[c..]))
  {
    hide IdOf;
    NestedDistinct();
  }

  /** The reader of directories is flagged, then the other one. */
  lemma NestedFlags()
    ensures Reachable(Nested(), Recording([R, X1], [2, 2], Y1, [], Ids1(5), Values1(5)))
  {
    hide IdOf, Taken, Reachable, AfterAck;
    NestedFills();
    Takings1();
    var m := Fetching([R, X1], [1, 0], [], Ids1(3), Values1(3));
    NestedSearch(1, [R, X1], X1, [Y1]);
    Reads(Nested(), m, 0, [Y1]);
    PairAck(m.ids, Unseen(32), Unseen(0), 32, 0, 16352);
    PairAck(m.values, Unseen(24), Unseen(0), 24, 0, 24);
    assert [1, 0][0 := 2] == [2, 0] && [] + [Y1] == [Y1] && [Y1] + [] == [Y1];
    assert AfterRead(m, 0, [Y1]) == Fetching([R, X1], [2, 0], [Y1], Ids1(4), Values1(4));
    Takes(Nested(), [R, X1], [2, 0], Y1, [], Ids1(4), Values1(4));
    NestedEntries();
  }

  lemma NestedEntries()
    requires Reachable(Nested(), Recording([R, X1], [2, 0], Y1, [], Ids1(4), Values1(4)))
    ensures Reachable(Nested(), Recording([R, X1], [2, 2], Y1, [], Ids1(5), Values1(5)))
  {
    hide IdOf, Taken, Reachable, AfterAck;
    Takings1();
    var m := Recording([R, X1], [2, 0], Y1, [], Ids1(4), Values1(4));
    Reads(Nested(), m, 1, []);
    PairAck(m.ids, Flagged(0), Unseen(0), 16384, 0, 16384);
    PairAck(m.values, Unseen(48), Unseen(0), 48, 0, 48);
    assert [2, 0][1 := 2] == [2, 2];
    assert AfterRead(m, 1, []) == Recording([R, X1], [2, 2], Y1, [], Ids1(5), Values1(5));
  }

  /** The next directory is searched, but its id cannot be acked; then the ring is full again. */
  lemma NestedRefills()
    ensures Reachable(Nested(), Recording([R, X1, Y1, Z], [3, 2], W, [], Ids1(8), Values1(8)))
  {
    hide IdOf, Taken, Reachable, AfterAck, Sight;
    NestedFlags();
    Records(Nested(), [R, X1], [2, 2], Y1, [], Ids1(5), Values1(5));
    assert [R, X1] + [Y1] == [R, X1, Y1];
    NestedRefused();
    assert [Z] + [W] == [Z, W] && [W] + [] == [W] && [R, X1, Y1] + [Z] == [R, X1, Y1, Z];
    Takes(Nested(), [R, X1, Y1], [3, 2], Z, [W], Ids1(7), Values1(7));
    Records(Nested(), [R, X1, Y1], [3, 2], Z, [W], Ids1(7), Values1(7));
    assert ClearFlags([Flagged(0), Flagged(0)]) == [Unseen(0), Unseen(0)];
    Takes(Nested(), [R, X1, Y1, Z], [3, 2], W, [], Ids1(8), Values1(8));
  }

  lemma NestedRefused()
    requires Reachable(Nested(), Fetching([R, X1, Y1], [2, 2], [], Ids1(6), Values1(6)))
    ensures Reachable(Nested(), Fetching([R, X1, Y1], [3, 2], [Z, W], Ids1(7), Values1(7)))
  {
    hide IdOf, Taken, Reachable, AfterAck;
    Takings1();
    var m := Fetching([R, X1, Y1], [2, 2], [], Ids1(6), Values1(6));
    NestedSearch(2, [R, X1, Y1], Y1, [Z, W]);
    Reads(Nested(), m, 0, [Z, W]);
    PairAck(m.values, Unseen(48), Unseen(48), 48, 48, 24);
    assert [2, 2][0 := 3] == [3, 2] && [] + [Z, W] == [Z, W];
    assert AfterRead(m, 0, [Z, W]) == Fetching([R, X1, Y1], [3, 2], [Z, W], Ids1(7), Values1(7));
  }

  /** The last directory is refused twice, and each reader reads what it can. */
  lemma NestedReads()
    ensures Reachable(Nested(), Recording([R, X1, Y1, Z], [4, 4], W, [], Ids1(10), Values1(10)))
  {
    hide IdOf, Taken, Reachable, AfterAck;
    NestedRefills();
    Takings1();
    var m := Recording([R, X1, Y1, Z], [3, 2], W, [], Ids1(8), Values1(8));
    Reads(Nested(), m, 1, []);
    PairAck(m.ids, Unseen(0), Unseen(0), 16384, 16384, 16384);
    PairAck(m.values, Unseen(72), Unseen(48), 72, 48, 48);
    assert [3, 2][1 := 4] == [3, 4];
    assert AfterRead(m, 1, []) == Recording([R, X1, Y1, Z], [3, 4], W, [], Ids1(9), Values1(9));
    NestedLastRead();
  }

  lemma NestedLastRead()
    requires Reachable(Nested(), Recording([R, X1, Y1, Z], [3, 4], W, [], Ids1(9), Values1(9)))
    ensures Reachable(Nested(), Recording([R, X1, Y1, Z], [4, 4], W, [], Ids1(10), Values1(10)))
  {
    hide IdOf, Taken, Reachable, AfterAck;
    Takings1();
    var m := Recording([R, X1, Y1, Z], [3, 4], W, [], Ids1(9), Values1(9));
    NestedSearch(3, [R, X1, Y1, Z], Z, []);
    Reads(Nested(), m, 0, []);
    PairAck(m.ids, Unseen(0), Flagged(0), 16384, 32768, 32);
    PairAck(m.values, Unseen(72), Unseen(96), 72, 96, 24);
    assert [3, 4][0 := 4] == [4, 4];
    assert AfterRead(m, 0, []) == Recording([R, X1, Y1, Z], [4, 4], W, [], Ids1(10), Values1(10));
  }

  /** Then the push is refused again, and the reader that is to make room has nothing to read: the
      ring is "full and empty at the same time", which the code asserts to be impossible. */
  lemma AbortedIsReached()
    ensures exists trace :: trace != [] && IsRun(Nested(), trace)
                            && Shaped(trace[|trace| - 1]) && Decide(trace[|trace| - 1]) == Stop(Aborted)
  {
    hide IdOf, Taken, IsRun, Tears;
    NestedReads();
    var m := Recording([R, X1, Y1, Z], [4, 4], W, [], Ids1(10), Values1(10));
    assert Shaped(m) && Decide(m) == Stop(Aborted);
  }
}
