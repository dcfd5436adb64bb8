/** The rings of a traversal and their two readers. */
module BranchRings {
  import opened Wrappers
  import opened Forest
  import Memory
  import opened Ring
  import opened MultiRing
  import opened BranchLinks


  method NewPair<B>(size: nat, blank: B) returns (r: MultiRing<B>)
    requires 0 < size
    ensures r.Valid() && Unflagged(r.V()) && fresh(r) && fresh(r.ring) && fresh(r.ring.data)
    ensures r.V() == EmptyView(size) && r.ring.log == []
  {
    r := new MultiRing<B>(size, blank);
    DupKeeps(r.V(), 0);
    var second := r.Dup(0);
  }

  /** What the heads and flags of two readers say about an ack that tears. */
  lemma TearsInSlots(v: View, r: nat, count: nat)
    requires Placed(v) && Sated(v) && FlagsOfFull(v) && |v.pos| == 2 && r < 2
    ensures Tears(v, r, count) <==>
            var head, one, other := (v.log - v.used) % v.size, v.readers[r], v.readers[1 - r];
            && 0 < count && 0 < v.used < v.size && one.head == head == other.head && !one.starved && other.starved
  {
    hide Min;
    forall i | 0 <= i < 2
      ensures v.readers[i].head == (v.log - v.used) % v.size <==> v.pos[i] == v.log - v.used || v.pos[i] == v.log - v.used + v.size
    {
      assert AtSlot(v.size, v.readers[i], v.pos[i]);
      SightIs(v, i);
      Wrap(v.log - v.used, v.pos[i] - (v.log - v.used), v.size);
      if v.pos[i] - (v.log - v.used) < v.size && v.pos[i] != v.log - v.used {
        SlotsDiffer(v.log - v.used, v.pos[i], v.size);
      }
    }
  }

  class Rings {
    const ids: MultiRing<byte>
    const values: MultiRing<StructByte>
    ghost var recorded: seq<Id> // directories in both rings' history
    ghost var counts: seq<nat>  // how many of them each reader has read
    ghost var pending: seq<Id>  // the directory whose id is pushed and whose structure is not

    ghost function IdRepr(): set<object> {
      {ids, ids.ring, ids.ring.data}
    }

    ghost function ValueRepr(): set<object> {
      {values, values.ring, values.ring.data}
    }

    ghost predicate Valid()
      reads this, IdRepr(), ValueRepr()
    {
      && IdRepr() !! ValueRepr() && this !in IdRepr() && this !in ValueRepr()
      && ids.Valid() && values.Valid()
      && Linked(ids.V(), ids.ring.log, values.V(), values.ring.log, recorded, counts, pending)
    }

    constructor ()
      ensures Valid() && fresh(IdRepr()) && fresh(ValueRepr())
      ensures recorded == [] && counts == [0, 0] && pending == []
      ensures ids.V() == EmptyView(ID_RING_SIZE) && values.V() == EmptyView(VALUE_RING_SIZE)
    {
      hide Tracked, Holds, Concat, Encode, Unflagged, Placed, InStep;
      var i := NewPair<byte>(ID_RING_SIZE, 0);
      var v := NewPair(VALUE_RING_SIZE, StructByte(IdRef(0, 0), 0));
      ids, values := i, v;
      recorded, counts, pending := [], [0, 0], [];
      new;
      EmptyTracks(ids.V(), values.V());
    }

    /** Everything recorded that reader `r` has not read: the ids are fetched from the id ring
        through the structures of the value ring. */
    method Fetch(r: nat) returns (dirs: seq<Id>, size: nat, taken: nat)
      requires Valid() && r < 2
      ensures dirs == recorded[counts[r]..] && size == |values.ring.log| - values.pos[r] && taken == Taken(recorded, counts, r)
    {
      hide Concat, Encode, FlagsOfFull;
      UnflaggedIsCoherent(values.V());
      CoherentFlag(values.V(), r);
      assert recorded[..|recorded|] == recorded;
      ConcatAppend(recorded, pending);
      SightIs(ids.V(), r);
      var structs := values.Peek(r);
      size := |structs|;
      dirs, taken := FetchIds(ids.ring, structs, recorded, counts[r]);
    }

    /** Whether acking `taken` bytes of ids drops ids that the other reader has not read. */
    method WouldTear(r: nat, taken: nat) returns (torn: bool)
      requires Valid() && r < 2
      ensures torn <==> Tears(ids.V(), r, taken)
    {
      hide Concat, Encode, Tears, FlagsOfFull, Sated, Placed;
      TrackedAck(ids.V(), values.V(), recorded, counts, pending, r);
      TearsInSlots(ids.V(), r, taken);
      var one, other := ids.readers[r], ids.readers[1 - r];
      torn := 0 < taken && 0 < ids.ring.used < ids.ring.data.Length && one.head == ids.ring.head == other.head
              && !one.starved && other.starved;
    }

    /** ... then both rings are acked. The id ring may refuse. `torn` tells that the ack would drop
        ids that the other reader has not read; nothing is done then. */
    method ReadBatch(r: nat) returns (dirs: seq<Id>, torn: bool)
      requires Valid() && r < 2
      modifies this`counts, ids, ids.ring, values, values.ring
      ensures Valid() && dirs == old(recorded[counts[r]..])
      ensures torn <==> Tears(old(ids.V()), r, Taken(recorded, old(counts), r))
      ensures counts == if torn then old(counts) else old(counts)[r := |recorded|]
      ensures ids.V() == if torn then old(ids.V()) else AfterTry(old(ids.V()), r, Taken(recorded, old(counts), r))
      ensures old(values.pos[r] <= |values.ring.log|)
      ensures values.V() == if torn then old(values.V()) else AfterAck(old(values.V()), r, old(|values.ring.log| - values.pos[r]))
    {
      hide Holds, Concat, Encode, Taken, AfterAck, Tears, FlagsOfFull, Sated, Min, Placed, FlagRight, Coherent;
      ghost var iv, vv := ids.V(), values.V();
      ReadTracks(iv, vv, recorded, counts, pending, r);
      TrackedAck(iv, vv, recorded, counts, pending, r);
      var size, taken;
      dirs, size, taken := Fetch(r);
      torn := WouldTear(r, taken);
      if torn {
        return;
      }
      var e1 := values.Ack(r, size);
      var e2 := ids.Ack(r, taken);
      counts := counts[r := |recorded|];
    }

    /** Which reader seems to have most unread id bytes. While the readers see their backlogs and a
        push is refused, it has work. */
    method LargestReader() returns (r: nat)
      requires Valid()
      ensures r == Largest(ids.V())
      ensures Coherent(ids.V()) && InStep(ids.V(), recorded, counts) && Distinct(recorded)
              && ((pending == [] && ids.ring.used > 0) || values.ring.used + Memory.VALUE_SIZE > VALUE_RING_SIZE) ==>
                counts[r] < |recorded|
    {
      hide Concat, Encode, Placed, Unflagged, FlagsOfFull, InStep, Coherent;
      if Coherent(ids.V()) && InStep(ids.V(), recorded, counts) && Distinct(recorded)
         && ((pending == [] && ids.ring.used > 0) || values.ring.used + Memory.VALUE_SIZE > VALUE_RING_SIZE) {
        LargestHasWork(ids.V(), values.V(), recorded, counts, pending);
      }
      SightIs(ids.V(), DIRECTORIES);
      var d := ids.Peek(DIRECTORIES);
      var f := ids.Peek(FSENTRIES);
      r := if |d| > |f| then DIRECTORIES else FSENTRIES;
    }

    /** Records the id of a directory; returns its address. */
    method RecordId(id: Id) returns (address: nat, error: Option<Error>)
      requires Valid() && pending == []
      modifies this`pending, ids, ids.ring, ids.ring.data
      ensures Valid() && ids.V() == AfterPush(old(ids.V()), |id|) && values.V() == old(values.V())
      ensures error == if old(ids.ring.used) + |id| <= ID_RING_SIZE then None
                       else if |id| > ID_RING_SIZE then Some(EINVAL) else Some(ENOBUFS)
      ensures error.None? ==> pending == [id] && address == |Concat(recorded)| % ID_RING_SIZE
      ensures error.Some? ==> pending == []
    {
      hide Holds, Concat, Encode;
      ghost var iv, il := ids.V(), ids.ring.log;
      if iv.used + |id| <= iv.size {
        PushIdTracks(iv, values.V(), recorded, counts, id);
        OffsetStable(recorded, id, 0);
      }
      assert recorded + [] == recorded;
      address, error := ids.Push(id);
      if error.None? {
        pending := [id];
        assert ids.V() == AfterPush(iv, |id|) && ids.ring.log == il + id;
      }
    }

    /** Records the structure for the directory whose id was recorded last. */
    method RecordValue(ref: IdRef) returns (error: Option<Error>)
      requires Valid() && |pending| == 1
      requires ref == IdRef(|Concat(recorded)| % ID_RING_SIZE, |pending[0]|)
      modifies this`recorded, this`pending, values, values.ring, values.ring.data
      ensures Valid() && values.V() == AfterPush(old(values.V()), Memory.VALUE_SIZE) && ids.V() == old(ids.V())
      ensures error.None? <==> old(values.ring.used) + Memory.VALUE_SIZE <= VALUE_RING_SIZE
      ensures error.None? ==> recorded == old(recorded + pending) && pending == []
      ensures error.Some? ==> recorded == old(recorded) && pending == old(pending)
    {
      hide Holds, Concat, Encode;
      ghost var vv, vl, id := values.V(), values.ring.log, pending[0];
      assert pending == [id];
      if vv.used + Memory.VALUE_SIZE <= vv.size {
        PushValueTracks(ids.V(), vv, recorded, counts, id);
        OffsetStable(recorded, id, 0);
        assert (recorded + [id]) + [] == recorded + [id];
      }
      var address;
      address, error := values.Push(Struct(ref));
      if error.None? {
        recorded, pending := recorded + [id], [];
        assert values.V() == AfterPush(vv, Memory.VALUE_SIZE) && values.ring.log == vl + Struct(ref);
      }
    }
  }
}
