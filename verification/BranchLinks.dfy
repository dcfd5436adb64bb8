/** What the two rings of a traversal hold: the ids of the recorded directories, and structures
    that point at them.
 */
module BranchLinks {
  import opened Wrappers
  import opened Forest
  import Memory
  import opened Ring
  import opened MultiRing
  import opened BranchSearch

  const ID_RING_SIZE: nat := 16384
  const VALUE_RING_SIZE: nat := 16384

  /** How many structures the value ring can hold. */
  const MAX_STRUCTS: nat := VALUE_RING_SIZE / Memory.VALUE_SIZE

  /** The two readers of each ring. */
  const DIRECTORIES: nat := 0
  const FSENTRIES: nat := 1

  /** A binary value: where an id lies in the id ring, and its length. */
  datatype IdRef = IdRef(address: nat, size: nat)

  /** The k-th byte of the structure that holds `ref`. */
  datatype StructByte = StructByte(ref: IdRef, k: nat)

  function Struct(ref: IdRef): (s: seq<StructByte>)
    ensures |s| == Memory.VALUE_SIZE
  {
    seq(Memory.VALUE_SIZE, k requires 0 <= k => StructByte(ref, k))
  }

  function Concat(dirs: seq<Id>): seq<byte> {
    if dirs == [] then [] else Concat(dirs[..|dirs| - 1]) + dirs[|dirs| - 1]
  }

  /** How many bytes the ids of the first `k` directories take. */
  function Offset(dirs: seq<Id>, k: nat): nat
    requires k <= |dirs|
  {
    |Concat(dirs[..k])|
  }

  function RefOf(dirs: seq<Id>, k: nat): IdRef
    requires k < |dirs|
  {
    IdRef(Offset(dirs, k) % ID_RING_SIZE, |dirs[k]|)
  }

  function Encode(dirs: seq<Id>): (s: seq<StructByte>)
    ensures |s| == Memory.VALUE_SIZE * |dirs|
  {
    if dirs == [] then []
    else
      var n := |dirs| - 1;
      Encode(dirs[..n]) + Struct(RefOf(dirs, n))
  }

  lemma {:induction false} ConcatAppend(a: seq<Id>, b: seq<Id>)
    ensures Concat(a + b) == Concat(a) + Concat(b)
  {
    if b == [] {
      assert a + b == a;
    } else {
      var n := |b| - 1;
      assert (a + b)[..|a + b| - 1] == a + b[..n];
      ConcatAppend(a, b[..n]);
    }
  }

  /** The id of the k-th directory lies between its offset and the next. */
  lemma ConcatAt(dirs: seq<Id>, k: nat)
    requires k < |dirs|
    ensures Offset(dirs, k + 1) == Offset(dirs, k) + |dirs[k]| <= |Concat(dirs)|
    ensures Concat(dirs)[Offset(dirs, k)..Offset(dirs, k + 1)] == dirs[k]
  {
    assert dirs[..k + 1][..k] == dirs[..k];
    assert dirs == dirs[..k + 1] + dirs[k + 1..];
    ConcatAppend(dirs[..k + 1], dirs[k + 1..]);
  }

  lemma {:induction false} EncodeAt(dirs: seq<Id>, k: nat)
    requires k < |dirs|
    ensures Encode(dirs)[Memory.VALUE_SIZE * k] == StructByte(RefOf(dirs, k), 0)
  {
    var n := |dirs| - 1;
    if k < n {
      EncodeAt(dirs[..n], k);
      assert dirs[..n][..k] == dirs[..k];
    }
  }

  lemma {:induction false} OffsetGrows(dirs: seq<Id>, i: nat, j: nat)
    requires i <= j <= |dirs|
    ensures Offset(dirs, i) <= Offset(dirs, j)
    ensures forall k :: i <= k < j && dirs[k] != [] ==> Offset(dirs, i) < Offset(dirs, j)
    decreases j
  {
    if i < j {
      ConcatAt(dirs, j - 1);
      OffsetGrows(dirs, i, j - 1);
    }
  }

  /** Recording one more directory keeps the offsets of the others. */
  lemma OffsetStable(dirs: seq<Id>, id: Id, k: nat)
    requires k <= |dirs|
    ensures Offset(dirs + [id], k) == Offset(dirs, k)
    ensures Encode(dirs + [id]) == Encode(dirs) + Struct(IdRef(|Concat(dirs)| % ID_RING_SIZE, |id|))
    ensures Concat(dirs + [id]) == Concat(dirs) + id
  {
    assert (dirs + [id])[..k] == dirs[..k];
    assert (dirs + [id])[..|dirs|] == dirs;
  }

  /** The bookkeeping of both rings fits what was recorded. Each reader has read a number of whole
      entries (`counts`). The value ring never misleads it; in the id ring it may have been refused
      acks and stand further back. `pending` is an id whose structure is not pushed yet. */
  ghost predicate Tracked(iv: View, vv: View, recorded: seq<Id>, counts: seq<nat>, pending: seq<Id>) {
    && Placed(iv) && Sated(iv) && FlagsOfFull(iv) && iv.size == ID_RING_SIZE && iv.log == |Concat(recorded + pending)|
    && Unflagged(vv) && vv.size == VALUE_RING_SIZE && vv.log == Memory.VALUE_SIZE * |recorded| && |pending| <= 1
    && |counts| == |iv.pos| == |vv.pos| == 2
    && forall r :: 0 <= r < 2 ==>
         counts[r] <= |recorded| && iv.pos[r] <= Offset(recorded, counts[r]) && vv.pos[r] == Memory.VALUE_SIZE * counts[r]
  }

  /** ... and their contents are what was recorded. */
  ghost predicate Linked(iv: View, il: seq<byte>, vv: View, vl: seq<StructByte>,
                         recorded: seq<Id>, counts: seq<nat>, pending: seq<Id>) {
    && Tracked(iv, vv, recorded, counts, pending)
    && il == Concat(recorded + pending) && vl == Encode(recorded)
  }

  /** No ack of ids was refused: the readers have read the same in both rings. */
  ghost predicate InStep(iv: View, recorded: seq<Id>, counts: seq<nat>) {
    |counts| == |iv.pos| == 2
    && forall r :: 0 <= r < 2 ==> counts[r] <= |recorded| && iv.pos[r] == Offset(recorded, counts[r])
  }

  /** A set of directories of the branch, as they may lie in the id ring together. */
  ghost predicate BranchDirectories(es: Entries, depth: map<Id, nat>, root: Id, dirs: seq<Id>)
    requires TreeShaped(es, depth)
  {
    Distinct(dirs) && forall x :: x in dirs ==> x in es && Above(es, depth, root, x) && (x == root || es[x].dir)
  }

  /** No directories of the branch fill the id ring to the last byte. Only so many need to be
      considered: the value ring is full before. */
  ghost predicate NoExactFill(es: Entries, depth: map<Id, nat>, root: Id)
    requires TreeShaped(es, depth)
  {
    forall dirs :: BranchDirectories(es, depth, root, dirs) && |dirs| <= MAX_STRUCTS + 1 ==> |Concat(dirs)| != ID_RING_SIZE
  }

  lemma MultiplesAdd(a: nat, b: nat, k: nat)
    requires 0 < k && a % k == 0 && b % k == 0
    ensures (a + b) % k == 0
  {
    assert a + b == k * (a / k) + k * (b / k) == k * (a / k + b / k);
    ModUnique(a + b, a / k + b / k, 0, k);
  }

  lemma {:induction false} ConcatMultiple(dirs: seq<Id>, k: nat)
    requires 0 < k && forall x :: x in dirs ==> |x| % k == 0
    ensures |Concat(dirs)| % k == 0
  {
    if dirs == [] {
      ModUnique(0, 0, 0, k);
    } else {
      var n := |dirs| - 1;
      assert dirs[n] in dirs;
      ConcatMultiple(dirs[..n], k);
      MultiplesAdd(|Concat(dirs[..n])|, |dirs[n]|, k);
    }
  }

  lemma {:induction false} ConcatShort(dirs: seq<Id>)
    requires forall x :: x in dirs ==> |x| < Memory.VALUE_SIZE
    ensures |Concat(dirs)| <= (Memory.VALUE_SIZE - 1) * |dirs|
  {
    if dirs != [] {
      var n := |dirs| - 1;
      assert dirs[n] in dirs;
      ConcatShort(dirs[..n]);
    }
  }

  /** Ids shorter than a structure never fill the id ring, whatever their lengths: the 16-byte ids
      the source speaks of are safe. */
  lemma ShortIdsNeverFill(es: Entries, depth: map<Id, nat>, root: Id)
    requires TreeShaped(es, depth) && forall x :: x in es ==> |x| < Memory.VALUE_SIZE
    ensures NoExactFill(es, depth, root)
  {
    forall dirs | BranchDirectories(es, depth, root, dirs) && |dirs| <= MAX_STRUCTS + 1
      ensures |Concat(dirs)| != ID_RING_SIZE
    {
      ConcatShort(dirs);
    }
  }

  /** Nor do ids whose lengths have a common divisor that the size of the ring does not have. */
  lemma DividedIdsNeverFill(es: Entries, depth: map<Id, nat>, root: Id, k: nat)
    requires TreeShaped(es, depth) && 0 < k && ID_RING_SIZE % k != 0
    requires forall x :: x in es ==> |x| % k == 0
    ensures NoExactFill(es, depth, root)
  {
    forall dirs | BranchDirectories(es, depth, root, dirs) && |dirs| <= MAX_STRUCTS + 1
      ensures |Concat(dirs)| != ID_RING_SIZE
    {
      ConcatMultiple(dirs, k);
    }
  }

  lemma KnownAreBranchDirectories(es: Entries, depth: map<Id, nat>, root: Id, recorded: seq<Id>, read: nat, known: seq<Id>)
    requires TreeShaped(es, depth) && Explored(es, root, recorded, read, known)
    ensures BranchDirectories(es, depth, root, known)
  {
    forall x | x in known ensures x in es && Above(es, depth, root, x) {
      var k :| 0 <= k < |known| && known[k] == x;
      ReachedBelow(es, depth, root, recorded, read, known, k);
    }
  }

  lemma SliceOfBranchDirectories(es: Entries, depth: map<Id, nat>, root: Id, dirs: seq<Id>, a: nat, b: nat)
    requires TreeShaped(es, depth) && BranchDirectories(es, depth, root, dirs) && a <= b <= |dirs|
    ensures BranchDirectories(es, depth, root, dirs[a..b])
  {
    assert forall x :: x in dirs[a..b] ==> x in dirs;
  }

  function Lesser(a: nat, b: nat): nat {
    if a < b then a else b
  }

  lemma MinOfPair(pos: seq<nat>)
    requires |pos| == 2
    ensures Min(pos) == Lesser(pos[0], pos[1])
  {
    assert Least(pos, Min(pos)) && pos[0] in pos && pos[1] in pos;
  }

  /** The value ring is never exactly full: a structure does not divide it. */
  lemma ValuesStored(iv: View, vv: View, recorded: seq<Id>, counts: seq<nat>, pending: seq<Id>)
    requires Tracked(iv, vv, recorded, counts, pending)
    ensures vv.used == Memory.VALUE_SIZE * (|recorded| - Lesser(counts[0], counts[1])) < vv.size
  {
    hide Min, Concat;
    MinOfPair(vv.pos);
  }

  /** While no ack was refused, the id ring stores the ids that the slower reader has not read. */
  lemma IdsStored(iv: View, vv: View, recorded: seq<Id>, counts: seq<nat>, pending: seq<Id>)
    requires Tracked(iv, vv, recorded, counts, pending) && InStep(iv, recorded, counts)
    ensures var m := Lesser(counts[0], counts[1]);
            && iv.used == |Concat(recorded[m..] + pending)| && iv.log - iv.used == Offset(recorded, m)
  {
    hide Min, Concat;
    var m := Lesser(counts[0], counts[1]);
    OffsetGrows(recorded, m, counts[0]);
    OffsetGrows(recorded, m, counts[1]);
    MinOfPair(iv.pos);
    assert recorded + pending == recorded[..m] + (recorded[m..] + pending);
    ConcatAppend(recorded[..m], recorded[m..] + pending);
  }

  /** When the id ring is full for the first time, directories of the branch fill it. */
  lemma FullIsExactFill(es: Entries, depth: map<Id, nat>, root: Id, iv: View, vv: View,
                        recorded: seq<Id>, counts: seq<nat>, pending: seq<Id>, read: nat, known: seq<Id>)
    requires TreeShaped(es, depth) && Explored(es, root, recorded, read, known) && recorded + pending <= known
    requires Tracked(iv, vv, recorded, counts, pending) && InStep(iv, recorded, counts) && iv.used == iv.size
    ensures !NoExactFill(es, depth, root)
  {
    hide Concat, Explored, Placed, Unflagged;
    var m, all := Lesser(counts[0], counts[1]), recorded + pending;
    IdsStored(iv, vv, recorded, counts, pending);
    ValuesStored(iv, vv, recorded, counts, pending);
    KnownAreBranchDirectories(es, depth, root, recorded, read, known);
    SliceOfBranchDirectories(es, depth, root, known, m, |all|);
    assert recorded[m..] + pending == known[m..|all|];
  }

  // ------------------------------------------------------------------ what happens to the rings

  /** The bytes of ids that reader `r` has to ack after reading all that is recorded. */
  ghost function Taken(recorded: seq<Id>, counts: seq<nat>, r: nat): nat
    requires r < |counts| && counts[r] <= |recorded|
  {
    OffsetGrows(recorded, counts[r], |recorded|);
    Offset(recorded, |recorded|) - Offset(recorded, counts[r])
  }

  /** After an ack that is refused when the reader does not see as much. */
  ghost function AfterTry(v: View, r: nat, count: nat): View
    requires 0 < v.size && r < |v.pos| == |v.readers| && v.used <= v.log
  {
    if v.pos[r] + count <= v.log && count <= Sight(v, r) then AfterAck(v, r, count) else v
  }

  /** Reader `r` takes everything recorded that it has not read. */
  lemma ReadTracks(iv: View, vv: View, recorded: seq<Id>, counts: seq<nat>, pending: seq<Id>, r: nat)
    requires Tracked(iv, vv, recorded, counts, pending) && r < 2
    ensures var n, c := |recorded|, counts[r];
            && iv.pos[r] + Taken(recorded, counts, r) <= iv.log && vv.pos[r] + Memory.VALUE_SIZE * (n - c) == vv.log
            && Tracked(AfterTry(iv, r, Taken(recorded, counts, r)), AfterAck(vv, r, Memory.VALUE_SIZE * (n - c)),
                       recorded, counts[r := n], pending)
  {
    hide AtSlot, Encode, Min, Placed, FlagsOfFull, Sated;
    var n, c, taken := |recorded|, counts[r], Taken(recorded, counts, r);
    OffsetGrows(recorded, c, n);
    assert recorded[..n] == recorded;
    ConcatAppend(recorded, pending);
    ValuesStored(iv, vv, recorded, counts, pending);
    AckKeepsUnflagged(vv, r, Memory.VALUE_SIZE * (n - c));
    AckKeepsPlaced(iv, r, taken);
    AckKeepsSated(iv, r, taken);
  }

  /** What acking both rings relies on: the value ring never refuses, nor is it torn; the id ring
      refuses exactly what the reader does not see. */
  lemma TrackedAck(iv: View, vv: View, recorded: seq<Id>, counts: seq<nat>, pending: seq<Id>, r: nat)
    requires Tracked(iv, vv, recorded, counts, pending) && r < 2
    ensures var size := vv.log - vv.pos[r];
            && 0 <= size <= Sight(vv, r) && Sated(vv) && Placed(vv) && !Tears(vv, r, size)
            && Placed(iv) && Sated(iv) && FlagsOfFull(iv) && iv.pos[r] + Taken(recorded, counts, r) <= iv.log
            && size == Memory.VALUE_SIZE * (|recorded| - counts[r])
            && |iv.readers| == |vv.readers| == |vv.pos| == 2
  {
    hide Unflagged, FlagsOfFull, Concat;
    ReadTracks(iv, vv, recorded, counts, pending, r);
    UnflaggedIsCoherent(vv);
    CoherentAck(vv, r, vv.log - vv.pos[r]);
  }

  /** It keeps in step exactly if it sees what it read. */
  lemma ReadInStep(iv: View, vv: View, recorded: seq<Id>, counts: seq<nat>, pending: seq<Id>, r: nat)
    requires Tracked(iv, vv, recorded, counts, pending) && InStep(iv, recorded, counts) && r < 2
    ensures InStep(AfterTry(iv, r, Taken(recorded, counts, r)), recorded, counts[r := |recorded|])
            <==> Taken(recorded, counts, r) == 0 || !Blinded(iv, r)
  {
    hide Concat, AtSlot, Min, Placed, FlagsOfFull, Sated, Unflagged;
    ReadTracks(iv, vv, recorded, counts, pending, r);
    SightIs(iv, r);
  }

  /** The id of a directory goes in the id ring first ... */
  lemma PushIdTracks(iv: View, vv: View, recorded: seq<Id>, counts: seq<nat>, id: Id)
    requires Tracked(iv, vv, recorded, counts, []) && iv.used + |id| <= iv.size
    ensures Tracked(AfterPush(iv, |id|), vv, recorded, counts, [id])
    ensures InStep(iv, recorded, counts) ==> InStep(AfterPush(iv, |id|), recorded, counts)
  {
    PushKeepsPlaced(iv, |id|);
    PushKeepsSated(iv, |id|);
    OffsetStable(recorded, id, 0);
    assert recorded + [] == recorded;
  }

  /** ... then the structure that points at it in the value ring. */
  lemma PushValueTracks(iv: View, vv: View, recorded: seq<Id>, counts: seq<nat>, id: Id)
    requires Tracked(iv, vv, recorded, counts, [id]) && vv.used + Memory.VALUE_SIZE <= vv.size
    ensures Tracked(iv, AfterPush(vv, Memory.VALUE_SIZE), recorded + [id], counts, [])
    ensures InStep(iv, recorded, counts) ==> InStep(iv, recorded + [id], counts)
  {
    PushKeepsUnflagged(vv, Memory.VALUE_SIZE);
    var all := recorded + [id];
    assert all + [] == all;
    forall r | 0 <= r < 2 ensures Offset(all, counts[r]) == Offset(recorded, counts[r]) {
      OffsetStable(recorded, id, counts[r]);
    }
  }

  /** The reader that seems to be further behind. */
  function Largest(iv: View): nat
    requires 0 < iv.size && |iv.readers| == 2 && iv.used <= iv.log
  {
    if Sight(iv, DIRECTORIES) > Sight(iv, FSENTRIES) then DIRECTORIES else FSENTRIES
  }

  /** When a push is refused, the reader with most unread id bytes has directories to read. */
  lemma LargestHasWork(iv: View, vv: View, recorded: seq<Id>, counts: seq<nat>, pending: seq<Id>)
    requires Tracked(iv, vv, recorded, counts, pending) && InStep(iv, recorded, counts) && Coherent(iv)
    requires Distinct(recorded) && ((pending == [] && iv.used > 0) || vv.used + Memory.VALUE_SIZE > vv.size)
    ensures counts[Largest(iv)] < |recorded|
  {
    hide AtSlot, Min, Placed, FlagsOfFull, Unflagged;
    var n, m := |recorded|, Lesser(counts[0], counts[1]);
    IdsStored(iv, vv, recorded, counts, pending);
    ValuesStored(iv, vv, recorded, counts, pending);
    OffsetGrows(recorded, m, n);
    assert recorded[..n] == recorded;
    ConcatAppend(recorded, pending);
    assert Offset(recorded, m) < Offset(recorded, n) by {
      if !(pending == [] && iv.used > 0) {
        assert recorded[m] != [] || recorded[m + 1] != [];
      } else {
        assert recorded + pending == recorded;
      }
    }
    CoherentIsSated(iv);
    SightIs(iv, 0);
    SightIs(iv, 1);
  }

  /** An empty ring with two readers. */
  function EmptyView(size: nat): View {
    View(size, 0, 0, [NewReader, NewReader], [0, 0])
  }

  lemma EmptyTracks(iv: View, vv: View)
    requires Unflagged(iv) && iv.size == ID_RING_SIZE && iv.pos == [0, 0] && iv.log == 0
    requires Unflagged(vv) && vv.size == VALUE_RING_SIZE && vv.pos == [0, 0] && vv.log == 0
    ensures Tracked(iv, vv, [], [0, 0], []) && InStep(iv, [], [0, 0]) && Concat([] + []) == [] && Encode([]) == []
  {
    var none: seq<Id> := [];
    assert none + none == none && Offset(none, 0) == 0;
  }

  // ------------------------------------------------------------------ reading ids back

  /** The k-th structure leads to the id it was recorded for, if that id is still in the ring. */
  lemma FetchOne(ring: Ring<byte>, recorded: seq<Id>, k: nat)
    requires ring.Valid() && ring.data.Length == ID_RING_SIZE && k < |recorded|
    requires Concat(recorded) <= ring.log && |ring.log| - ring.used <= Offset(recorded, k)
    ensures var ref := Encode(recorded)[Memory.VALUE_SIZE * k].ref;
            && ring.ReadFrom(ref.address, ref.size) == recorded[k]
            && Offset(recorded, k) + ref.size == Offset(recorded, k + 1)
  {
    EncodeAt(recorded, k);
    ConcatAt(recorded, k);
    ring.Windowed(Offset(recorded, k), |recorded[k]|);
  }

  /** Follows structures into the id ring. */
  method FetchIds(ring: Ring<byte>, structs: seq<StructByte>, ghost recorded: seq<Id>, ghost c: nat)
    returns (dirs: seq<Id>, taken: nat)
    requires ring.Valid() && ring.data.Length == ID_RING_SIZE && c <= |recorded|
    requires structs == Encode(recorded)[Memory.VALUE_SIZE * c..]
    requires Concat(recorded) <= ring.log && |ring.log| - ring.used <= Offset(recorded, c)
    ensures dirs == recorded[c..] && Offset(recorded, c) + taken == Offset(recorded, |recorded|)
  {
    var count := |structs| / Memory.VALUE_SIZE;
    assert count == |recorded| - c;
    dirs, taken := [], 0;
    for i := 0 to count
      invariant dirs == recorded[c..c + i]
      invariant Offset(recorded, c) + taken == Offset(recorded, c + i)
    {
      OffsetGrows(recorded, c, c + i);
      FetchOne(ring, recorded, c + i);
      var ref := structs[Memory.VALUE_SIZE * i].ref;
      assert ref == Encode(recorded)[Memory.VALUE_SIZE * (c + i)].ref;
      var id := ring.ReadFrom(ref.address, ref.size);
      dirs, taken := dirs + [id], taken + ref.size;
    }
  }
}
