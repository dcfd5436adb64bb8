/** Several readers over one ring. A byte leaves the ring once the slowest reader acked it.

    The circular list of readers is a sequence: only its elements matter, not where a
    traversal starts.
 */
module MultiRing {
  import opened Wrappers
  import opened Ring

  /** `starved` is to be considered only when the reader stands at the head of the ring. */
  datatype Reader = Reader(head: nat, starved: bool)

  /** The bookkeeping of a ring of `size` bytes after `log` bytes were pushed, `used` of which
      are still stored: the readers as the code keeps them, and the position in the history
      each one really has reached. */
  datatype View = View(size: nat, log: nat, used: nat, readers: seq<Reader>, pos: seq<nat>)

  // ------------------------------------------------------------------ what readers see

  /** What a reader can read, as the code computes it. */
  function Readable(size: nat, head: nat, used: nat, r: Reader): int {
    if r.head == head && r.starved then 0
    else if r.head >= head then used - (r.head - head)
    else head - r.head - (size - used)
  }

  predicate Least(s: seq<nat>, m: nat) {
    m in s && forall i :: 0 <= i < |s| ==> m <= s[i]
  }

  lemma {:induction false} LeastExists(s: seq<nat>) returns (m: nat)
    requires s != []
    ensures Least(s, m)
  {
    var n := |s| - 1;
    m := s[n];
    if n > 0 {
      var k := LeastExists(s[..n]);
      m := if s[n] < k then s[n] else k;
    }
  }

  /** The position of the slowest reader. */
  ghost function Min(s: seq<nat>): (m: nat)
    requires s != []
    ensures Least(s, m)
  {
    assert exists m: nat :: Least(s, m) by { var m := LeastExists(s); }
    var m: nat :| Least(s, m);
    m
  }

  /** The head of a reader is the slot of its position. */
  predicate AtSlot(size: nat, r: Reader, pos: nat)
    requires 0 < size
  {
    r.head == pos % size
  }

  /** Every reader stands at its slot; the slowest is at the start of the window. */
  ghost predicate Placed(v: View) {
    && 0 < v.size && v.used <= v.size && v.used <= v.log && |v.pos| == |v.readers| > 0
    && (forall i :: 0 <= i < |v.pos| ==> v.pos[i] <= v.log && AtSlot(v.size, v.readers[i], v.pos[i]))
    && Min(v.pos) == v.log - v.used
  }

  /** The flag of a reader tells apart "has read nothing" and "has read everything of a full
      ring", the two positions that share the slot of the head. */
  predicate FlagRight(v: View, i: nat)
    requires i < |v.pos| == |v.readers|
  {
    && (v.pos[i] == v.log - v.used && v.used > 0 ==> !v.readers[i].starved)
    && (v.pos[i] == v.log - v.used + v.size ==> v.readers[i].starved)
  }

  /** Every reader sees exactly its backlog. */
  ghost predicate Coherent(v: View) {
    Placed(v) && forall i :: 0 <= i < |v.pos| ==> FlagRight(v, i)
  }

  /** Reader `i` stands inside the window. */
  predicate Inside(v: View, i: nat)
    requires i < |v.pos| == |v.readers|
  {
    0 < v.size && v.used <= v.size && v.used <= v.log && v.log - v.used <= v.pos[i] <= v.log && AtSlot(v.size, v.readers[i], v.pos[i])
  }

  /** The computed count is the number of unread bytes exactly when the flag is right. */
  lemma ReadableIsBacklog(v: View, i: nat)
    requires i < |v.pos| == |v.readers| && Inside(v, i)
    ensures Readable(v.size, (v.log - v.used) % v.size, v.used, v.readers[i]) == v.log - v.pos[i]
            <==> FlagRight(v, i)
  {
    Wrap(v.log - v.used, v.pos[i] - (v.log - v.used), v.size);
  }

  /** What a reader with a wrong flag computes. */
  lemma WrongFlag(v: View, i: nat)
    requires i < |v.pos| == |v.readers| && Inside(v, i)
    ensures !FlagRight(v, i) ==>
              && v.readers[i].head == (v.log - v.used) % v.size
              && Readable(v.size, (v.log - v.used) % v.size, v.used, v.readers[i]) == if v.readers[i].starved then 0 else v.used
  {
    Wrap(v.log - v.used, v.size, v.size);
  }

  /** Who has read everything of a full ring is flagged: the flag is raised on the way there. */
  predicate Sated(v: View) {
    |v.pos| == |v.readers| && forall i :: 0 <= i < |v.pos| && v.pos[i] == v.log - v.used + v.size ==> v.readers[i].starved
  }

  /** On a full ring a flag means what it says. */
  predicate FlagsOfFull(v: View) {
    |v.pos| == |v.readers| && (v.used == v.size ==> forall i :: 0 <= i < |v.pos| && v.readers[i].starved ==> v.pos[i] == v.log)
  }

  /** The flag of a reader hides from it all that the ring stores. */
  predicate Blinded(v: View, i: nat)
    requires i < |v.pos| == |v.readers|
  {
    v.readers[i].starved && v.pos[i] == v.log - v.used && v.used > 0
  }

  /** What reader `i` computes that it can read. */
  function Sight(v: View, i: nat): int
    requires 0 < v.size && i < |v.readers| && v.used <= v.log
  {
    Readable(v.size, (v.log - v.used) % v.size, v.used, v.readers[i])
  }

  /** A reader sees its backlog, or nothing while its flag hides it. */
  lemma SightIs(v: View, i: nat)
    requires Placed(v) && Sated(v) && i < |v.pos|
    ensures Inside(v, i) && (FlagRight(v, i) <==> !Blinded(v, i))
    ensures Sight(v, i) == if Blinded(v, i) then 0 else v.log - v.pos[i]
  {
    assert AtSlot(v.size, v.readers[i], v.pos[i]);
    ReadableIsBacklog(v, i);
    WrongFlag(v, i);
  }

  lemma CoherentSees(v: View)
    requires Placed(v) && Sated(v)
    ensures Coherent(v) <==> forall i :: 0 <= i < |v.pos| ==> !Blinded(v, i)
  {
    forall i | 0 <= i < |v.pos| ensures FlagRight(v, i) <==> !Blinded(v, i) {
      SightIs(v, i);
    }
  }

  lemma CoherentIsSated(v: View)
    requires Coherent(v)
    ensures Placed(v) && Sated(v) && forall i :: 0 <= i < |v.pos| ==> !Blinded(v, i)
  {
    forall i | 0 <= i < |v.pos| ensures !Blinded(v, i) {
      assert FlagRight(v, i);
    }
    forall i | 0 <= i < |v.pos| && v.pos[i] == v.log - v.used + v.size ensures v.readers[i].starved {
      assert FlagRight(v, i);
    }
  }

  /** No reader was ever flagged: none has read everything of a full ring. */
  ghost predicate Unflagged(v: View) {
    Placed(v) && forall i :: 0 <= i < |v.pos| ==> !v.readers[i].starved && v.pos[i] < v.log - v.used + v.size
  }

  lemma UnflaggedIsCoherent(v: View)
    requires Unflagged(v)
    ensures Coherent(v)
  {
  }

  // ------------------------------------------------------------------ pushing

  function ClearFlags(readers: seq<Reader>): (r: seq<Reader>)
    ensures |r| == |readers| && forall i :: 0 <= i < |r| ==> r[i] == Reader(readers[i].head, false)
  {
    seq(|readers|, i requires 0 <= i < |readers| => Reader(readers[i].head, false))
  }

  function AfterPush(v: View, n: nat): View {
    if v.used + n > v.size || n == 0 then v
    else v.(log := v.log + n, used := v.used + n,
            readers := if v.used + n == v.size then ClearFlags(v.readers) else v.readers)
  }

  /** A push is safe exactly when it does not put data in an empty ring with a flagged reader,
      unless it fills that ring at once. */
  lemma PushSafeIff(v: View, n: nat)
    requires Coherent(v) && v.used + n <= v.size
    ensures Placed(AfterPush(v, n))
    ensures Coherent(AfterPush(v, n)) <==>
            n == 0 || v.used > 0 || n == v.size || forall i :: 0 <= i < |v.readers| ==> !v.readers[i].starved
  {
    var w := AfterPush(v, n);
    forall i | 0 <= i < |v.readers|
      ensures AtSlot(w.size, w.readers[i], w.pos[i])
      ensures FlagRight(w, i) <==> n == 0 || v.used > 0 || n == v.size || !v.readers[i].starved
    {
      assert FlagRight(v, i) && AtSlot(v.size, v.readers[i], v.pos[i]);
    }
    if Coherent(w) {
      forall i | 0 <= i < |v.readers|
        ensures n == 0 || v.used > 0 || n == v.size || !v.readers[i].starved
      {
        assert FlagRight(w, i);
      }
    }
  }

  lemma PushKeepsUnflagged(v: View, n: nat)
    requires Unflagged(v)
    ensures Unflagged(AfterPush(v, n))
  {
  }

  // ------------------------------------------------------------------ acknowledging

  ghost function Advance(pos: seq<nat>, i: nat, count: nat): (p: seq<nat>)
    requires i < |pos|
    ensures |p| == |pos| && Min(pos) <= Min(p) <= p[i]
  {
    var p := pos[i := pos[i] + count];
    assert forall j :: 0 <= j < |p| ==> Min(pos) <= pos[j] <= p[j];
    p
  }

  /** After reader `i` acked `count` of its unread bytes, what no reader needs is dropped. The
      flag is raised when the reader is then a whole turn ahead of the head. */
  ghost function AfterAck(v: View, i: nat, count: nat): View
    requires 0 < v.size && i < |v.pos| == |v.readers| && v.pos[i] + count <= v.log
  {
    if count == 0 then v
    else
      var pos := Advance(v.pos, i, count);
      var starved := v.readers[i].starved || pos[i] == v.log - v.used + v.size;
      v.(used := v.log - Min(pos), pos := pos, readers := v.readers[i := Reader(pos[i] % v.size, starved)])
  }

  /** Reader `j` ends up slowest with data left. */
  ghost predicate LeftSlowest(v: View, i: nat, count: nat, j: nat)
    requires i < |v.pos| && j < |v.pos|
  {
    var p := Advance(v.pos, i, count);
    p[j] == Min(p) && p[j] < v.log
  }

  lemma AckFlag(v: View, i: nat, count: nat, j: nat)
    requires Coherent(v) && i < |v.pos| && j < |v.pos| && v.pos[i] + count <= v.log && 0 < count
    ensures var w := AfterAck(v, i, count);
            && w.pos[j] <= w.log && AtSlot(w.size, w.readers[j], w.pos[j])
            && (FlagRight(w, j) <==> (v.readers[j].starved ==> !LeftSlowest(v, i, count, j)))
  {
    assert FlagRight(v, j) && AtSlot(v.size, v.readers[j], v.pos[j]);
    assert Advance(v.pos, i, count)[j] == if i == j then v.pos[j] + count else v.pos[j];
  }

  /** An ack is safe exactly when it leaves no flagged reader slowest with data left. */
  lemma AckSafeIff(v: View, i: nat, count: nat)
    requires Coherent(v) && i < |v.pos| && v.pos[i] + count <= v.log
    ensures Placed(AfterAck(v, i, count))
    ensures Coherent(AfterAck(v, i, count)) <==>
            forall j :: 0 <= j < |v.readers| && v.readers[j].starved ==> !LeftSlowest(v, i, count, j)
  {
    var w := AfterAck(v, i, count);
    if count > 0 {
      forall j | 0 <= j < |v.readers|
        ensures w.pos[j] <= w.log && AtSlot(w.size, w.readers[j], w.pos[j])
        ensures FlagRight(w, j) <==> (v.readers[j].starved ==> !LeftSlowest(v, i, count, j))
      {
        AckFlag(v, i, count, j);
      }
    } else {
      assert Advance(v.pos, i, count) == v.pos;
      forall j | 0 <= j < |v.readers|
        ensures FlagRight(w, j) <==> (v.readers[j].starved ==> !LeftSlowest(v, i, count, j))
      {
        assert FlagRight(v, j);
      }
    }
  }

  /** Catching up with the writer on an exactly full ring is the only thing that raises a flag. */
  lemma AckKeepsUnflagged(v: View, i: nat, count: nat)
    requires Unflagged(v) && i < |v.pos| && v.pos[i] + count <= v.log
    ensures Unflagged(AfterAck(v, i, count)) <==> count == 0 || v.used < v.size || v.pos[i] + count < v.log
  {
    AckSafeIff(v, i, count);
    var w := AfterAck(v, i, count);
    assert !w.readers[i].starved <==> count == 0 || v.used < v.size || v.pos[i] + count < v.log;
  }

  // ------------------------------------------------------------------ leaving

  /** After reader `i` left, what only it needed is dropped. */
  ghost function AfterDestroy(v: View, i: nat): View
    requires i < |v.pos| == |v.readers| && |v.pos| > 1
    requires forall j :: 0 <= j < |v.pos| ==> v.pos[j] <= v.log
  {
    var pos := Without(v.pos, i);
    assert Min(pos) in v.pos;
    v.(used := v.log - Min(pos), pos := pos, readers := Without(v.readers, i))
  }

  lemma DestroyFlag(v: View, i: nat, k: nat)
    requires Coherent(v) && i < |v.pos| && |v.pos| > 1 && k < |v.pos| - 1
    ensures var w, j := AfterDestroy(v, i), if k < i then k else k + 1;
            && w.pos[k] == v.pos[j] && w.readers[k] == v.readers[j] && AtSlot(w.size, w.readers[k], w.pos[k])
            && (FlagRight(w, k) <==> (v.readers[j].starved ==> v.pos[j] == v.log || v.pos[j] != Min(w.pos)))
  {
    var w, j := AfterDestroy(v, i), if k < i then k else k + 1;
    assert FlagRight(v, j) && AtSlot(v.size, v.readers[j], v.pos[j]);
    assert Min(w.pos) in v.pos;
  }

  /** A reader may leave safely exactly when that leaves no flagged reader slowest with data left. */
  lemma DestroySafeIff(v: View, i: nat)
    requires Coherent(v) && i < |v.pos| && |v.pos| > 1
    ensures Placed(AfterDestroy(v, i)) && AfterDestroy(v, i).used <= v.used
    ensures Coherent(AfterDestroy(v, i)) <==>
            forall j :: 0 <= j < |v.pos| && j != i && v.readers[j].starved ==>
              v.pos[j] == v.log || v.pos[j] != Min(Without(v.pos, i))
  {
    var w := AfterDestroy(v, i);
    assert Min(w.pos) in v.pos;
    forall k | 0 <= k < |w.pos|
      ensures w.pos[k] <= w.log && AtSlot(w.size, w.readers[k], w.pos[k])
    {
      DestroyFlag(v, i, k);
    }
    if Coherent(w) {
      forall j | 0 <= j < |v.pos| && j != i && v.readers[j].starved
        ensures v.pos[j] == v.log || v.pos[j] != Min(w.pos)
      {
        var k := if j < i then j else j - 1;
        assert FlagRight(w, k);
        DestroyFlag(v, i, k);
      }
    } else {
      var k :| 0 <= k < |w.pos| && !FlagRight(w, k);
      DestroyFlag(v, i, k);
    }
  }

  lemma MinOfOne(p: nat)
    ensures Min([p]) == p
  {
    assert Least([p], Min([p]));
  }

  /** What coherence comes to for a single reader. */
  lemma OneReader(size: nat, log: nat, used: nat, r: Reader, p: nat)
    requires 0 < size && used <= size && p == log - used && r.head == p % size && (used > 0 ==> !r.starved)
    ensures Coherent(View(size, log, used, [r], [p]))
  {
    MinOfOne(p);
    var v := View(size, log, used, [r], [p]);
    assert AtSlot(v.size, v.readers[0], v.pos[0]) && FlagRight(v, 0);
  }

  lemma OneAcks(size: nat, log: nat, used: nat, r: Reader, p: nat, count: nat)
    requires 0 < size && used <= log && 0 < count && p + count <= log
    ensures AfterAck(View(size, log, used, [r], [p]), 0, count) ==
            View(size, log, log - (p + count), [Reader((p + count) % size, r.starved || p + count == log - used + size)], [p + count])
  {
    MinOfOne(p + count);
    assert Advance([p], 0, count) == [p + count];
  }

  /** A ring of two bytes: push two, ack both, push one. The reader is told there is nothing. */
  lemma FlaggedReaderMissesData()
    ensures var start, full := View(2, 0, 0, [Reader(0, false)], [0]), View(2, 2, 2, [Reader(0, false)], [0]);
            var read, more := View(2, 2, 0, [Reader(0, true)], [2]), View(2, 3, 1, [Reader(0, true)], [2]);
            && Coherent(start) && Coherent(full) && Coherent(read)
            && AfterPush(start, 2) == full && AfterAck(full, 0, 2) == read && AfterPush(read, 1) == more
            && Readable(2, (more.log - more.used) % 2, more.used, more.readers[0]) == 0 < more.log - more.pos[0]
  {
    hide Coherent, AfterAck;
    var two, reader := 2, Reader(0, false);
    OneReader(two, 0, 0, reader, 0);
    OneReader(two, 2, 2, reader, 0);
    OneReader(two, 2, 0, Reader(0, true), 2);
    OneAcks(two, 2, 2, reader, 0, 2);
    assert ClearFlags([reader]) == [reader];
  }

  // ------------------------------------------------------------------ steps of the code

  function AfterDup(v: View, i: nat): View
    requires i < |v.pos| == |v.readers|
  {
    v.(readers := v.readers + [v.readers[i]], pos := v.pos + [v.pos[i]])
  }

  lemma DupKeeps(v: View, i: nat)
    requires Placed(v) && i < |v.pos|
    ensures Placed(AfterDup(v, i))
    ensures Coherent(v) ==> Coherent(AfterDup(v, i))
    ensures Unflagged(v) ==> Unflagged(AfterDup(v, i))
  {
    var w := AfterDup(v, i);
    assert w.pos[..|v.pos|] == v.pos;
    forall j | 0 <= j < |w.pos|
      ensures w.pos[j] <= w.log && AtSlot(w.size, w.readers[j], w.pos[j])
      ensures Coherent(v) ==> FlagRight(w, j)
    {
      var k := if j < |v.pos| then j else i;
      assert AtSlot(v.size, v.readers[k], v.pos[k]);
      assert Coherent(v) ==> FlagRight(v, k);
    }
  }

  lemma PushKeepsPlaced(v: View, n: nat)
    requires Placed(v)
    ensures Placed(AfterPush(v, n))
  {
    var w := AfterPush(v, n);
    forall j | 0 <= j < |w.pos| ensures w.pos[j] <= w.log && AtSlot(w.size, w.readers[j], w.pos[j]) {
      assert AtSlot(v.size, v.readers[j], v.pos[j]);
    }
  }

  /** Only a move of a slowest reader can free bytes. */
  lemma AckKeepsPlaced(v: View, i: nat, count: nat)
    requires Placed(v) && i < |v.pos| && v.pos[i] + count <= v.log
    ensures Placed(AfterAck(v, i, count))
    ensures v.pos[i] != v.log - v.used ==> AfterAck(v, i, count).used == v.used
  {
    var w := AfterAck(v, i, count);
    forall j | 0 <= j < |w.pos| ensures w.pos[j] <= w.log && AtSlot(w.size, w.readers[j], w.pos[j]) {
      assert AtSlot(v.size, v.readers[j], v.pos[j]);
    }
    if v.pos[i] != v.log - v.used {
      var k :| 0 <= k < |v.pos| && v.pos[k] == Min(v.pos);
      assert Advance(v.pos, i, count)[k] == Min(v.pos);
    }
  }

  lemma AckKeepsSated(v: View, i: nat, count: nat)
    requires Placed(v) && Sated(v) && i < |v.pos| && v.pos[i] + count <= v.log
    ensures Sated(AfterAck(v, i, count))
    ensures FlagsOfFull(v) ==> FlagsOfFull(AfterAck(v, i, count))
  {
    AckKeepsPlaced(v, i, count);
  }

  lemma PushKeepsSated(v: View, n: nat)
    requires Placed(v) && Sated(v)
    ensures Sated(AfterPush(v, n))
    ensures FlagsOfFull(v) ==> FlagsOfFull(AfterPush(v, n))
  {
  }

  /** The ack of reader `i` makes the ring drop what another has not read: those that stand with it
      at the head are all blinded, so that nobody seems to need it. */
  predicate Tears(v: View, i: nat, count: nat)
    requires i < |v.pos| == |v.readers|
  {
    var base := v.log - v.used;
    && 0 < count && 0 < v.used && v.pos[i] == base && !v.readers[i].starved
    && (exists j :: 0 <= j < |v.pos| && j != i && v.pos[j] == base)
    && forall j :: 0 <= j < |v.pos| && j != i && v.pos[j] == base ==> v.readers[j].starved
  }

  function NextSlot(size: nat, slot: nat, count: nat): int {
    if slot + count >= size then slot + count - size else slot + count
  }

  /** What the code computes with slots is what happens to positions. */
  lemma AckSlots(size: nat, base: nat, used: nat, r: Reader, pos: nat, count: nat)
    requires 0 < size && used <= size && base <= pos && pos + count <= base + used && 0 < count
    requires AtSlot(size, r, pos)
    ensures NextSlot(size, r.head, count) == (pos + count) % size
    ensures (pos + count) % size == base % size <==> pos + count == base + size
    ensures r.head == base % size <==> pos == base
  {
    Wrap(base, pos - base, size);
    Wrap(base, pos + count - base, size);
    Wrap(pos, count, size);
  }

  /** Every reader sees its backlog or nothing, and a slowest one sees its backlog. */
  ghost predicate SeenEnough(size: nat, head: nat, used: nat, readers: seq<Reader>, log: nat, pos: seq<nat>) {
    && |pos| == |readers| > 0
    && (forall j :: 0 <= j < |pos| ==> 0 <= Readable(size, head, used, readers[j]) <= log - pos[j] <= size)
    && exists j :: 0 <= j < |pos| && pos[j] == Min(pos) && Readable(size, head, used, readers[j]) == log - pos[j]
  }

  lemma DestroyMidway(v: View, i: nat)
    requires Coherent(v) && i < |v.pos| && |v.pos| > 1
    ensures var w := AfterDestroy(v, i);
            SeenEnough(v.size, (v.log - v.used) % v.size, v.used, w.readers, w.log, w.pos)
  {
    var w := AfterDestroy(v, i);
    forall k | 0 <= k < |w.pos|
      ensures 0 <= Readable(v.size, (v.log - v.used) % v.size, v.used, w.readers[k]) == w.log - w.pos[k] <= v.size
    {
      var j := if k < i then k else k + 1;
      assert FlagRight(v, j) && Inside(v, j);
      ReadableIsBacklog(v, j);
    }
    var k :| 0 <= k < |w.pos| && w.pos[k] == Min(w.pos);
  }

  /** Between moving a reader and dropping what nobody needs. */
  lemma AckMidway(v: View, i: nat, count: nat)
    requires Placed(v) && Sated(v) && i < |v.pos| && v.pos[i] + count <= v.log && 0 < count
    requires v.pos[i] == v.log - v.used && !Blinded(v, i) && !Tears(v, i, count)
    ensures var w := AfterAck(v, i, count);
            SeenEnough(v.size, (v.log - v.used) % v.size, v.used, w.readers, w.log, w.pos)
  {
    var m, base := AfterAck(v, i, count).(used := v.used), v.log - v.used;
    forall j | 0 <= j < |m.pos|
      ensures var seen := Readable(v.size, base % v.size, v.used, m.readers[j]);
              0 <= seen <= m.log - m.pos[j] <= v.size && (m.pos[j] > base || !m.readers[j].starved ==> seen == m.log - m.pos[j])
    {
      assert AtSlot(v.size, v.readers[j], v.pos[j]) && Inside(m, j);
      ReadableIsBacklog(m, j);
      WrongFlag(m, j);
    }
    var k :| 0 <= k < |m.pos| && m.pos[k] == Min(m.pos);
    if m.pos[k] == base && m.readers[k].starved {
      assert k != i && v.pos[k] == base;
      var j :| 0 <= j < |v.pos| && j != i && v.pos[j] == base && !v.readers[j].starved;
      assert m.pos[j] == Min(m.pos);
    }
  }

  /** The largest backlog. The search stops early at a backlog of a whole ring. */
  method MaxReadable(size: nat, head: nat, used: nat, readers: seq<Reader>, ghost log: nat, ghost pos: seq<nat>)
    returns (max: nat)
    requires SeenEnough(size, head, used, readers, log, pos)
    ensures max == log - Min(pos)
  {
    max := Readable(size, head, used, readers[0]);
    var i := 1;
    while i < |readers| && max != size
      invariant 1 <= i <= |readers| && max <= log - Min(pos)
      invariant forall j :: 0 <= j < i ==> Readable(size, head, used, readers[j]) <= max
    {
      var readable := Readable(size, head, used, readers[i]);
      if readable > max {
        max := readable;
      }
      i := i + 1;
    }
    assert forall j :: 0 <= j < |pos| ==> Readable(size, head, used, readers[j]) <= max;
  }

  /** Moves reader `i` forward, raising its flag when it reaches the head of the ring again;
      tells whether it stood at the head before. */
  method MoveReader(size: nat, head: nat, readers: seq<Reader>, i: nat, count: nat, ghost v: View)
    returns (moved: seq<Reader>, wasAtHead: bool)
    requires Placed(v) && i < |v.pos| && v.pos[i] + count <= v.log && 0 < count
    requires size == v.size && head == (v.log - v.used) % v.size && readers == v.readers
    ensures moved == AfterAck(v, i, count).readers
    ensures wasAtHead <==> v.pos[i] == v.log - v.used
  {
    assert AtSlot(v.size, v.readers[i], v.pos[i]);
    AckSlots(v.size, v.log - v.used, v.used, v.readers[i], v.pos[i], count);
    var slot := NextSlot(size, readers[i].head, count);
    moved := readers[i := Reader(slot, readers[i].starved || slot == head)];
    wasAtHead := head == readers[i].head;
  }

  method Unflag(readers: seq<Reader>) returns (r: seq<Reader>)
    ensures r == ClearFlags(readers)
  {
    r := readers;
    for i := 0 to |readers|
      invariant |r| == |readers|
      invariant forall j :: 0 <= j < i ==> r[j] == Reader(readers[j].head, false)
      invariant forall j :: i <= j < |readers| ==> r[j] == readers[j]
    {
      r := r[i := r[i].(starved := false)];
    }
  }

  // ------------------------------------------------------------------ the class

  class MultiRing<B> {
    const ring: Ring<B>
    var readers: seq<Reader>
    ghost var pos: seq<nat>

    ghost function V(): View
      reads this, ring
    {
      View(ring.data.Length, |ring.log|, ring.used, readers, pos)
    }

    ghost predicate Valid()
      reads this, ring, ring.data
    {
      ring.Valid() && Placed(V())
    }

    /** What was pushed and not yet acked by reader `i`. */
    ghost function Pending(i: nat): seq<B>
      reads this, ring
      requires i < |pos| && pos[i] <= |ring.log|
    {
      ring.log[pos[i]..]
    }

    constructor (size: nat, blank: B)
      requires 0 < size
      ensures Valid() && Unflagged(V()) && fresh(ring) && fresh(ring.data)
      ensures V() == View(size, 0, 0, [Reader(0, false)], [0])
    {
      ring := new Ring<B>(size, blank);
      new;
      readers, pos := [Reader(ring.head, false)], [0];
    }

    /** A new reader starts where reader `i` is. */
    method Dup(i: nat) returns (j: nat)
      requires Valid() && i < |readers|
      modifies this
      ensures Valid() && j == |old(readers)|
      ensures V() == AfterDup(old(V()), i)
    {
      j := |readers|;
      DupKeeps(V(), i);
      readers, pos := readers + [readers[i]], pos + [pos[i]];
    }

    method Push(bytes: seq<B>) returns (address: nat, error: Option<Error>)
      requires Valid()
      modifies this`readers, ring, ring.data
      ensures Valid() && V() == AfterPush(old(V()), |bytes|) && address == |old(ring.log)| % ring.data.Length
      ensures error == if |bytes| <= ring.data.Length - old(ring.used) then None
                       else if |bytes| > ring.data.Length then Some(EINVAL) else Some(ENOBUFS)
      ensures ring.log == if error.None? then old(ring.log) + bytes else old(ring.log)
    {
      PushKeepsPlaced(V(), |bytes|);
      address, error := ring.Push(bytes);
      if error.Some? || bytes == [] || ring.used != ring.data.Length {
        return;
      }
      readers := Unflag(readers);
    }

    /** Reader `i` sees what was pushed and it did not ack, in order. With a wrong flag it sees
        nothing, or everything once more. */
    method Peek(i: nat) returns (bytes: seq<B>)
      requires Valid() && i < |readers|
      ensures FlagRight(V(), i) ==> bytes == Pending(i)
      ensures !FlagRight(V(), i) ==> bytes == if readers[i].starved then [] else ring.Contents()
      ensures |bytes| == Sight(V(), i)
    {
      assert Inside(V(), i);
      ReadableIsBacklog(V(), i);
      var readable := Readable(ring.data.Length, ring.head, ring.used, readers[i]);
      WrongFlag(V(), i);
      bytes := ring.ReadFrom(readers[i].head, readable);
      if FlagRight(V(), i) {
        ring.Windowed(pos[i], readable);
      } else {
        ring.Windowed(|ring.log| - ring.used, readable);
      }
    }

    /** Reader `i` is done with `count` bytes of what it sees. Refused exactly beyond that, so that a
        blinded reader cannot go on. */
    method Ack(i: nat, count: nat) returns (error: Option<Error>)
      requires Valid() && Sated(V()) && i < |readers| && !Tears(V(), i, count)
      modifies this, ring
      ensures error == if count <= Sight(old(V()), i) then None else Some(EINVAL)
      ensures Valid() && Sated(V()) && ring.log == old(ring.log)
      ensures old(pos)[i] + count <= |ring.log| || error.Some?
      ensures V() == if error.None? then AfterAck(old(V()), i, count) else old(V())
    {
      ghost var v := V();
      SightIs(v, i);
      var readable := Readable(ring.data.Length, ring.head, ring.used, readers[i]);
      if count > readable {
        return Some(EINVAL);
      }
      if count == 0 {
        return None;
      }
      AckKeepsPlaced(v, i, count);
      AckKeepsSated(v, i, count);
      if v.pos[i] == v.log - v.used {
        AckMidway(v, i, count);
      }
      var wasAtHead;
      readers, wasAtHead := MoveReader(ring.data.Length, ring.head, readers, i, count, v);
      pos := Advance(pos, i, count);
      error := None;
      if wasAtHead {
        var max := MaxReadable(ring.data.Length, ring.head, ring.used, readers, |ring.log|, pos);
        error := ring.Pop(ring.used - max);
      }
    }

    /** Reader `i` leaves. (The last reader takes the ring with it.) */
    method Destroy(i: nat)
      requires Valid() && Coherent(V()) && i < |readers| && |readers| > 1
      modifies this, ring
      ensures Valid() && ring.log == old(ring.log) && V() == AfterDestroy(old(V()), i)
    {
      DestroySafeIff(V(), i);
      DestroyMidway(V(), i);
      readers, pos := Without(readers, i), Without(pos, i);
      var max := MaxReadable(ring.data.Length, ring.head, ring.used, readers, |ring.log|, pos);
      var error := ring.Pop(ring.used - max);
    }
  }

  // ------------------------------------------------------------------ whole runs

  datatype Op<B> = Push(bytes: seq<B>) | Peek(reader: nat) | Ack(reader: nat, count: nat) | Dup(reader: nat) | Destroy(reader: nat)

  datatype Outcome<B> = Result(error: Option<Error>) | Seen(bytes: seq<B>) | Done

  /** The reference: one queue of unread bytes per reader. */
  type Queues<B> = seq<seq<B>>

  function Longest<B>(qs: Queues<B>): nat {
    if qs == [] then 0
    else
      var n := |qs| - 1;
      var m := Longest(qs[..n]);
      if |qs[n]| > m then |qs[n]| else m
  }

  function AppendToAll<B>(qs: Queues<B>, bytes: seq<B>): Queues<B> {
    seq(|qs|, i requires 0 <= i < |qs| => qs[i] + bytes)
  }

  function Step<B>(size: nat, qs: Queues<B>, op: Op<B>): (Queues<B>, Outcome<B>) {
    if !op.Push? && op.reader >= |qs| then (qs, Done) else
    match op
    case Push(bytes) =>
      if |bytes| + Longest(qs) <= size then (AppendToAll(qs, bytes), Result(None))
      else (qs, Result(Some(if |bytes| > size then EINVAL else ENOBUFS)))
    case Peek(i) => (qs, Seen(qs[i]))
    case Ack(i, count) =>
      if count <= |qs[i]| then (qs[i := qs[i][count..]], Result(None)) else (qs, Result(Some(EINVAL)))
    case Dup(i) => (qs + [qs[i]], Done)
    case Destroy(i) => (Without(qs, i), Done)
  }

  /** The operation names one of `n` readers and does not remove the last one. */
  predicate Named<B>(n: nat, op: Op<B>) {
    (op.Push? || op.reader < n) && (op.Destroy? ==> n > 1)
  }

  function Replay<B>(size: nat, qs: Queues<B>, ops: seq<Op<B>>): (Queues<B>, seq<Outcome<B>>)
    decreases |ops|
  {
    if ops == [] then (qs, [])
    else
      var (qs1, out) := Replay(size, qs, ops[..|ops| - 1]);
      var (qs2, o) := Step(size, qs1, ops[|ops| - 1]);
      (qs2, out + [o])
  }

  ghost function Unread<B>(log: seq<B>, pos: seq<nat>): (qs: Queues<B>)
    requires forall i :: 0 <= i < |pos| ==> pos[i] <= |log|
    ensures |qs| == |pos|
  {
    seq(|pos|, i requires 0 <= i < |pos| => log[pos[i]..])
  }

  /** The space in use is the longest backlog. */
  lemma {:induction false} LongestIsUsed<B>(log: seq<B>, pos: seq<nat>)
    requires pos != [] && forall i :: 0 <= i < |pos| ==> pos[i] <= |log|
    ensures Longest(Unread(log, pos)) == |log| - Min(pos)
  {
    var n, qs := |pos| - 1, Unread(log, pos);
    assert qs[..n] == Unread(log, pos[..n]);
    if n > 0 {
      LongestIsUsed(log, pos[..n]);
    } else {
      assert qs[..n] == [];
    }
  }

  lemma UnreadSteps<B>(log: seq<B>, pos: seq<nat>, bytes: seq<B>, i: nat, count: nat)
    requires i < |pos| && forall j :: 0 <= j < |pos| ==> pos[j] <= |log|
    ensures Unread(log + bytes, pos) == AppendToAll(Unread(log, pos), bytes)
    ensures pos[i] + count <= |log| ==>
              Unread(log, Advance(pos, i, count)) == Unread(log, pos)[i := Unread(log, pos)[i][count..]]
    ensures Unread(log, pos + [pos[i]]) == Unread(log, pos) + [Unread(log, pos)[i]]
    ensures Unread(log, Without(pos, i)) == Without(Unread(log, pos), i)
  {
    forall j | 0 <= j < |pos| ensures (log + bytes)[pos[j]..] == log[pos[j]..] + bytes {
    }
  }

  /** The bookkeeping after an operation, the history beside it, and the answer. */
  ghost function StepView<B>(v: View, log: seq<B>, op: Op<B>): (View, seq<B>, Outcome<B>)
    requires Placed(v) && v.log == |log|
  {
    if !op.Push? && op.reader >= |v.pos| then (v, log, Done) else
    match op
    case Push(bytes) =>
      if |bytes| <= v.size - v.used then (AfterPush(v, |bytes|), log + bytes, Result(None))
      else (v, log, Result(Some(if |bytes| > v.size then EINVAL else ENOBUFS)))
    case Peek(i) => (v, log, Seen(log[v.pos[i]..]))
    case Ack(i, count) =>
      if v.pos[i] + count <= v.log then (AfterAck(v, i, count), log, Result(None)) else (v, log, Result(Some(EINVAL)))
    case Dup(i) => (AfterDup(v, i), log, Done)
    case Destroy(i) => (if |v.pos| > 1 then AfterDestroy(v, i) else v, log, Done)
  }

  /** What each operation does to the bookkeeping keeps the readers in their places. */
  lemma StepPlaced<B>(v: View, log: seq<B>, op: Op<B>)
    requires Coherent(v) && v.log == |log| && Named(|v.pos|, op)
    ensures var (w, log', o) := StepView(v, log, op);
            Placed(w) && w.log == |log'|
  {
    match op
    case Push(bytes) => PushKeepsPlaced(v, |bytes|);
    case Peek(i) =>
    case Ack(i, count) =>
      if v.pos[i] + count <= v.log {
        AckKeepsPlaced(v, i, count);
      }
    case Dup(i) => DupKeeps(v, i);
    case Destroy(i) => DestroySafeIff(v, i);
  }

  /** A push, seen by the queues. */
  lemma PushIsReference<B>(v: View, log: seq<B>, bytes: seq<B>)
    requires Placed(v) && v.log == |log|
    ensures var (w, log', o) := StepView(v, log, Push(bytes));
            w.pos == v.pos && |log'| >= |log| && Step(v.size, Unread(log, v.pos), Push(bytes)) == (Unread(log', w.pos), o)
  {
    LongestIsUsed(log, v.pos);
    UnreadSteps(log, v.pos, bytes, 0, 0);
  }

  lemma AckIsReference<B>(v: View, log: seq<B>, i: nat, count: nat)
    requires Placed(v) && v.log == |log| && i < |v.pos|
    requires v.pos[i] + count <= v.log ==> Placed(AfterAck(v, i, count))
    ensures var (w, log', o) := StepView(v, log, Ack(i, count));
            log' == log && Placed(w) && w.log == v.log && Step(v.size, Unread(log, v.pos), Ack(i, count)) == (Unread(log, w.pos), o)
  {
    UnreadSteps(log, v.pos, [], i, count);
    if v.pos[i] + count <= v.log {
      assert count == 0 ==> Advance(v.pos, i, count) == v.pos;
    }
  }

  /** While every reader sees its backlog, each operation answers as the queues do. */
  lemma StepIsReference<B>(v: View, log: seq<B>, op: Op<B>)
    requires Coherent(v) && v.log == |log| && Named(|v.pos|, op)
    ensures var (w, log', o) := StepView(v, log, op);
            && Placed(w) && w.log == |log'|
            && Step(v.size, Unread(log, v.pos), op) == (Unread(log', w.pos), o)
  {
    StepPlaced(v, log, op);
    match op
    case Push(bytes) => PushIsReference(v, log, bytes);
    case Peek(i) =>
    case Ack(i, count) => AckIsReference(v, log, i, count);
    case Dup(i) => UnreadSteps(log, v.pos, [], i, 0);
    case Destroy(i) => UnreadSteps(log, v.pos, [], i, 0);
  }

  /** The condition of `PushSafeIff`, `AckSafeIff` or `DestroySafeIff`. */
  ghost predicate Safe<B>(v: View, op: Op<B>)
    requires Placed(v) && Named(|v.pos|, op)
  {
    match op
    case Push(bytes) =>
      var n := |bytes|;
      v.used + n > v.size || n == 0 || v.used > 0 || n == v.size || forall i :: 0 <= i < |v.readers| ==> !v.readers[i].starved
    case Ack(i, count) =>
      v.pos[i] + count > v.log || forall j :: 0 <= j < |v.readers| && v.readers[j].starved ==> !LeftSlowest(v, i, count, j)
    case Destroy(i) =>
      forall j :: 0 <= j < |v.pos| && j != i && v.readers[j].starved ==> v.pos[j] == v.log || v.pos[j] != Min(Without(v.pos, i))
    case _ => true
  }

  lemma StepSafeIff<B>(v: View, log: seq<B>, op: Op<B>)
    requires Coherent(v) && v.log == |log| && Named(|v.pos|, op)
    ensures Coherent(StepView(v, log, op).0) <==> Safe(v, op)
  {
    match op
    case Push(bytes) =>
      if v.used + |bytes| <= v.size {
        PushSafeIff(v, |bytes|);
      }
    case Ack(i, count) =>
      if v.pos[i] + count <= v.log {
        AckSafeIff(v, i, count);
      }
    case Dup(i) => DupKeeps(v, i);
    case Destroy(i) => DestroySafeIff(v, i);
    case Peek(_) =>
  }

  // ------------------------------------------------------------------ runs

  /** Every operation names a reader, and every reader sees its backlog before and after each. */
  ghost predicate AlwaysCoherent<B>(v: View, log: seq<B>, ops: seq<Op<B>>)
    decreases |ops|
  {
    && Coherent(v) && v.log == |log|
    && (ops == [] ||
        (Named(|v.pos|, ops[0]) && var (w, log', o) := StepView(v, log, ops[0]); AlwaysCoherent(w, log', ops[1..])))
  }

  /** Every operation names a reader and meets its condition. */
  ghost predicate AlwaysSafe<B>(v: View, log: seq<B>, ops: seq<Op<B>>)
    decreases |ops|
  {
    && Placed(v) && v.log == |log|
    && (ops == [] ||
        (Named(|v.pos|, ops[0]) && Safe(v, ops[0]) && var (w, log', o) := StepView(v, log, ops[0]); AlwaysSafe(w, log', ops[1..])))
  }

  /** In a run, every reader sees its backlog throughout exactly when every operation is safe. */
  lemma {:induction false} CoherentIffSafe<B>(v: View, log: seq<B>, ops: seq<Op<B>>)
    requires Coherent(v) && v.log == |log|
    ensures AlwaysCoherent(v, log, ops) <==> AlwaysSafe(v, log, ops)
    decreases |ops|
  {
    hide Coherent, Placed, Safe;
    CoherentIsPlaced(v);
    if ops != [] && Named(|v.pos|, ops[0]) {
      var (w, log', o) := StepView(v, log, ops[0]);
      StepPlaced(v, log, ops[0]);
      StepSafeIff(v, log, ops[0]);
      if Coherent(w) {
        CoherentIffSafe(w, log', ops[1..]);
      }
    }
  }

  lemma CoherentIsPlaced(v: View)
    requires Coherent(v)
    ensures Placed(v)
  {
  }

  /** No reader catches up with the writer on an exactly full ring. */
  ghost predicate NeverCatchesUp<B>(v: View, log: seq<B>, ops: seq<Op<B>>)
    decreases |ops|
  {
    && Placed(v) && v.log == |log|
    && (ops == [] ||
        (Named(|v.pos|, ops[0]) && !CatchesUp(v, ops[0])
         && var (w, log', o) := StepView(v, log, ops[0]); NeverCatchesUp(w, log', ops[1..])))
  }

  predicate CatchesUp<B>(v: View, op: Op<B>)
    requires Named(|v.pos|, op)
  {
    op.Ack? && op.count > 0 && v.pos[op.reader] + op.count == v.log && v.used == v.size
  }

  lemma DestroyKeepsUnflagged(v: View, i: nat)
    requires Unflagged(v) && i < |v.pos| && |v.pos| > 1
    ensures Unflagged(AfterDestroy(v, i))
  {
    DestroySafeIff(v, i);
  }

  lemma UnflaggedStep<B>(v: View, log: seq<B>, op: Op<B>)
    requires Unflagged(v) && v.log == |log| && Named(|v.pos|, op) && !CatchesUp(v, op)
    ensures Safe(v, op) && Unflagged(StepView(v, log, op).0)
  {
    match op
    case Push(bytes) => PushKeepsUnflagged(v, |bytes|);
    case Ack(i, count) =>
      if v.pos[i] + count <= v.log {
        AckKeepsUnflagged(v, i, count);
      }
    case Dup(i) => DupKeeps(v, i);
    case Destroy(i) => DestroyKeepsUnflagged(v, i);
    case Peek(_) =>
  }

  /** A run in which nobody catches up on a full ring is safe. */
  lemma {:induction false} NeverCatchesUpIsSafe<B>(v: View, log: seq<B>, ops: seq<Op<B>>)
    requires Unflagged(v) && NeverCatchesUp(v, log, ops)
    ensures AlwaysSafe(v, log, ops)
    decreases |ops|
  {
    hide Safe, Placed, CatchesUp;
    if ops != [] {
      UnflaggedStep(v, log, ops[0]);
      var (w, log', o) := StepView(v, log, ops[0]);
      NeverCatchesUpIsSafe(w, log', ops[1..]);
    }
  }

  /** Where every reader sees its backlog, an ack is refused exactly beyond that and tears nothing. */
  lemma CoherentAck(v: View, i: nat, count: nat)
    requires Coherent(v) && i < |v.pos|
    ensures Placed(v) && Sated(v) && Sight(v, i) == v.log - v.pos[i] && !Tears(v, i, count)
  {
    CoherentIsSated(v);
    SightIs(v, i);
    if j :| 0 <= j < |v.pos| && j != i && v.pos[j] == v.log - v.used {
      assert !Blinded(v, j);
    }
  }

  lemma CoherentFlag(v: View, i: nat)
    requires Coherent(v) && i < |v.pos|
    ensures |v.readers| == |v.pos| && FlagRight(v, i)
  {
  }

  /** One operation of the code. */
  method Apply<B>(r: MultiRing<B>, op: Op<B>) returns (o: Outcome<B>)
    requires r.Valid() && Coherent(r.V()) && Named(|r.pos|, op)
    modifies r, r.ring, r.ring.data
    ensures r.Valid() && (r.V(), r.ring.log, o) == StepView(old(r.V()), old(r.ring.log), op)
  {
    hide Coherent, Sated, Tears;
    match op
    case Push(bytes) =>
      var address, error := r.Push(bytes);
      o := Result(error);
    case Peek(i) =>
      CoherentFlag(r.V(), i);
      var bytes := r.Peek(i);
      o := Seen(bytes);
    case Ack(i, count) =>
      CoherentAck(r.V(), i, count);
      var error := r.Ack(i, count);
      o := Result(error);
    case Dup(i) =>
      var j := r.Dup(i);
      o := Done;
    case Destroy(i) =>
      r.Destroy(i);
      o := Done;
  }

  const NewReader: Reader := Reader(0, false)

  function NewView(size: nat): View {
    View(size, 0, 0, [NewReader], [0])
  }

  /** In every run that is safe, and only then do all readers see their backlog throughout, every
      reader sees exactly what was pushed since its last ack, and a push fails exactly when it does
      not fit beside the longest backlog. */
  method Run<B>(size: nat, blank: B, ops: seq<Op<B>>) returns (outcomes: seq<Outcome<B>>)
    requires 0 < size && AlwaysSafe(NewView(size), [], ops)
    ensures AlwaysCoherent(NewView(size), [], ops)
    ensures outcomes == Replay(size, [[]], ops).1
  {
    hide Safe;
    var r := new MultiRing<B>(size, blank);
    outcomes := [];
    NewCoherent<B>(size);
    CoherentIffSafe(NewView(size), [], ops);
    assert ops[0..] == ops;
    for k := 0 to |ops|
      invariant r.Valid() && r.ring.data.Length == size
      invariant fresh(r) && fresh(r.ring) && fresh(r.ring.data)
      invariant AlwaysCoherent(r.V(), r.ring.log, ops[k..])
      invariant Replay(size, [[]], ops[..k]) == (Unread(r.ring.log, r.pos), outcomes)
    {
      assert ops[..k + 1][..k] == ops[..k] && ops[k..][0] == ops[k] && ops[k..][1..] == ops[k + 1..];
      StepIsReference(r.V(), r.ring.log, ops[k]);
      var o := Apply(r, ops[k]);
      outcomes := outcomes + [o];
    }
    assert ops[..|ops|] == ops;
  }

  lemma NewCoherent<B>(size: nat)
    requires 0 < size
    ensures Coherent(NewView(size)) && Unread<B>([], [0]) == [[]]
  {
    OneReader(size, 0, 0, NewReader, 0);
  }
}
