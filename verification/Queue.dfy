/** A queue of bytes in a growing array of rings. Bytes pushed together stay in one ring; rings
    that were read empty go to a pool and are used again.
 */
module Queue {
  import opened Wrappers
  import opened Ring

  function Flatten<B>(parts: seq<seq<B>>): seq<B> {
    if parts == [] then [] else parts[0] + Flatten(parts[1..])
  }

  lemma {:induction false} FlattenConcat<B>(a: seq<seq<B>>, b: seq<seq<B>>)
    ensures Flatten(a + b) == Flatten(a) + Flatten(b)
  {
    if a == [] {
      assert a + b == b;
    } else {
      assert (a + b)[1..] == a[1..] + b;
      FlattenConcat(a[1..], b);
    }
  }

  lemma FlattenOne<B>(part: seq<B>)
    ensures Flatten([part]) == part
  {
    assert [part][1..] == [];
    assert Flatten([part]) == part + Flatten([part][1..]);
  }

  /** Bytes added to the last part. */
  lemma FlattenLast<B>(parts: seq<seq<B>>, bytes: seq<B>)
    requires parts != []
    ensures var n := |parts| - 1;
            Flatten(parts[n := parts[n] + bytes]) == Flatten(parts) + bytes
  {
    var n := |parts| - 1;
    assert parts == parts[..n] + [parts[n]];
    assert parts[n := parts[n] + bytes] == parts[..n] + [parts[n] + bytes];
    FlattenConcat(parts[..n], [parts[n]]);
    FlattenConcat(parts[..n], [parts[n] + bytes]);
    FlattenOne(parts[n]);
    FlattenOne(parts[n] + bytes);
  }

  lemma FlattenFirst<B>(parts: seq<seq<B>>, count: nat)
    requires parts != [] && count <= |parts[0]|
    ensures Flatten(parts[0 := parts[0][count..]]) == Flatten(parts)[count..]
  {
    assert parts[0 := parts[0][count..]][1..] == parts[1..];
  }

  class Queue<B> {
    const chunk: nat
    const blank: B
    var slots: seq<Ring?<B>> // the array of rings, in use from head to tail
    var head: nat
    var tail: nat
    var pool: seq<Ring<B>>   // empty rings, last in first out
    ghost var rings: seq<Ring<B>>   // the rings in use
    ghost var parts: seq<seq<B>>    // what they hold
    ghost var repr: set<object>

    ghost predicate Shape()
      reads this
    {
      && 0 < chunk && head <= tail < |slots| && slots[head..tail + 1] == rings && |parts| == |rings| && this !in repr
      && Separate(rings, pool, repr)
    }

    ghost predicate Core()
      reads this, repr
    {
      && Shape()
      && (forall i | 0 <= i < |rings| :: Sound(rings[i], chunk, parts[i]))
      && (forall i | 0 <= i < |pool| :: Sound(pool[i], chunk, []))
    }

    /** A ring is read empty only as the last one. */
    ghost predicate Valid()
      reads this, repr
    {
      Core() && (|parts| > 1 ==> forall i | 0 <= i < |parts| :: parts[i] != [])
    }

    /** The bytes in the queue, oldest first. */
    ghost function Contents(): seq<B>
      reads this
    {
      Flatten(parts)
    }

    constructor (chunk: nat, blank: B)
      requires 0 < chunk
      ensures Valid() && Contents() == [] && fresh(repr) && this.chunk == chunk
    {
      this.chunk := chunk;
      this.blank := blank;
      var ring := NewRing(chunk, blank);
      slots, head, tail, pool := [ring], 0, 0, [];
      rings, parts, repr := [ring], [[]], {ring, ring.data};
      new;
      FlattenOne<B>([]);
      assert slots[0..1] == rings;
    }

    /** Pushes into the last ring. */
    method PushTail(bytes: seq<B>) returns (error: Option<Error>)
      requires Core()
      modifies this`parts, repr
      ensures Core() && repr == old(repr)
      ensures error == if |bytes| <= chunk - |old(parts[|parts| - 1])| then None
                       else if |bytes| > chunk then Some(EINVAL) else Some(ENOBUFS)
      ensures |parts| == |old(parts)| && parts == if error.None? then old(parts[|parts| - 1 := parts[|parts| - 1] + bytes]) else old(parts)
    {
      hide Sound;
      ghost var n := |parts| - 1;
      assert slots[tail] == slots[head..tail + 1][n] == rings[n];
      var ring := slots[tail];
      error := PushRing(ring, chunk, parts[n], bytes);
      if error.None? {
        parts := parts[n := parts[n] + bytes];
      }
    }

    /** Puts an empty ring after the last one: room is made in the array by moving what is in use
        to its start when more than half of it is unused in front, by doubling it otherwise; the
        ring comes from the pool if there is one. */
    method AddRing()
      requires Core()
      modifies this
      ensures Core() && parts == old(parts) + [[]]
      ensures old(repr) <= repr && fresh(repr - old(repr))
    {
      hide Sound, Flatten, Separate;
      MakeRoom();
      var ring := TakeRing();
      tail := tail + 1;
      slots := slots[tail := ring];
      rings, parts := rings + [ring], parts + [[]];
      assert slots[head..tail + 1] == rings;
    }

    /** An empty ring, from the pool if there is one. */
    method TakeRing() returns (ring: Ring<B>)
      requires Core()
      modifies this`pool, this`repr
      ensures Core() && old(repr) <= repr && fresh(repr - old(repr))
      ensures Separate(rings + [ring], pool, repr) && Sound(ring, chunk, [])
    {
      hide Sound, Separate;
      if pool != [] {
        ring := pool[|pool| - 1];
        FromPool(rings, pool, repr);
        pool := pool[..|pool| - 1];
        RingsOf(rings, ring, pool, repr);
      } else {
        InRepr(rings, pool, repr);
        ring := NewRing(chunk, blank);
        FromHeap(rings, pool, repr, ring);
        repr := repr + {ring, ring.data};
        RingsOf(rings, ring, pool, repr);
      }
    }

    /** Makes room for one more ring at the end. */
    method MakeRoom()
      requires Core()
      modifies this`slots, this`head, this`tail
      ensures Core() && tail + 1 < |slots|
    {
      hide Sound;
      var next := tail + 1;
      if next >= |slots| {
        if head > |slots| / 2 {
          slots := slots[head..next] + slots[next - head..];
          next := next - head;
          head := 0;
        } else {
          var more: seq<Ring?<B>> := seq(|slots|, _ => null);
          slots := slots + more;
        }
      }
      tail := next - 1;
      assert slots[head..tail + 1] == rings;
    }

    /** Refused exactly when the bytes are larger than a ring. Otherwise they are the new end of
        the queue, all in one ring. */
    method Push(bytes: seq<B>) returns (error: Option<Error>)
      requires Valid()
      modifies this, repr
      ensures Valid() && old(repr) <= repr && fresh(repr - old(repr))
      ensures error == if |bytes| <= chunk then None else Some(EINVAL)
      ensures Contents() == old(Contents()) + if error.None? then bytes else []
      ensures error.None? ==> parts != [] && EndsWith(parts[|parts| - 1], bytes)
    {
      hide Sound, Shape, Flatten;
      ghost var before := parts;
      PartsExist();
      error := PushTail(bytes);
      ghost var n := |parts| - 1;
      if error.None? {
        FlattenLast(before, bytes);
        assert EndsWith(parts[n], bytes);
        return;
      }
      if error.value == EINVAL {
        assert Flatten(parts) + [] == Flatten(parts);
        return;
      }
      PartFits(n);
      AddRing();
      error := PushTail(bytes);
      assert error.None?; // one fresh ring is enough
      assert [] + bytes == bytes;
      assert parts == before + [bytes];
      FlattenConcat(before, [bytes]);
      FlattenOne(bytes);
      assert EndsWith(parts[|before|], bytes);
    }

    lemma HasRoomForOne()
      requires Valid()
      ensures 0 < chunk
    {
    }

    lemma PartsExist()
      requires Core()
      ensures |parts| > 0
    {
    }

    lemma PartFits(i: nat)
      requires Core() && i < |parts|
      ensures |parts[i]| <= chunk
    {
      assert Sound(rings[i], chunk, parts[i]);
    }

    /** The oldest bytes that lie together; none only if the queue is empty. */
    method Peek() returns (bytes: seq<B>)
      requires Valid()
      ensures bytes <= Contents()
      ensures parts != [] && bytes == parts[0]
      ensures bytes == [] <==> Contents() == []
    {
      assert slots[head] == slots[head..tail + 1][0] == rings[0];
      assert Sound(rings[0], chunk, parts[0]);
      bytes := slots[head].Peek();
      if |parts| == 1 {
        assert parts == [parts[0]];
        FlattenOne(parts[0]);
      }
    }

    /** Refused exactly when fewer bytes are readable; otherwise they are gone. */
    method Pop(count: nat) returns (error: Option<Error>)
      requires Valid()
      modifies this, repr
      ensures Valid() && repr == old(repr)
      ensures error == if count <= |old(parts[0])| then None else Some(EINVAL)
      ensures error.None? ==> count <= |old(Contents())| && Contents() == old(Contents())[count..]
      ensures error.Some? ==> Contents() == old(Contents())
    {
      hide Sound, Flatten;
      ghost var before := parts;
      assert slots[head] == slots[head..tail + 1][0] == rings[0];
      var ring := slots[head];
      var left;
      error, left := PopRing(ring, chunk, parts[0], count);
      if error.Some? {
        return;
      }
      FlattenFirst(parts, count);
      FlattenHead(parts);
      parts := parts[0 := parts[0][count..]];
      if left == 0 && head < tail {
        FlattenHead(parts);
        assert parts[0] + Flatten(parts[1..]) == Flatten(parts[1..]);
        ToPool(rings, pool, repr);
        pool := pool + [ring];
        head := head + 1;
        rings, parts := rings[1..], parts[1..];
        assert slots[head..tail + 1] == rings;
      }
    }
  }

  ghost predicate EndsWith<B>(part: seq<B>, bytes: seq<B>) {
    |bytes| <= |part| && part[|part| - |bytes|..] == bytes
  }

  lemma FlattenHead<B>(parts: seq<seq<B>>)
    requires parts != []
    ensures Flatten(parts) == parts[0] + Flatten(parts[1..])
  {
  }

  lemma FromPool<B>(rings: seq<Ring<B>>, pool: seq<Ring<B>>, repr: set<object>)
    requires Separate(rings, pool, repr) && pool != []
    ensures Separate(rings + [pool[|pool| - 1]], pool[..|pool| - 1], repr)
  {
  }

  lemma RingsOf<B>(rings: seq<Ring<B>>, ring: Ring<B>, pool: seq<Ring<B>>, repr: set<object>)
    requires Separate(rings + [ring], pool, repr)
    ensures Separate(rings, pool, repr)
  {
    var all := rings + [ring];
    assert forall i | 0 <= i < |rings| :: all[i] == rings[i];
    forall i, j | 0 <= i < j < |rings| ensures Apart(rings[i], rings[j]) {
      assert Apart(all[i], all[j]);
    }
    forall i, j | 0 <= i < |rings| && 0 <= j < |pool| ensures Apart(rings[i], pool[j]) {
      assert Apart(all[i], pool[j]);
    }
  }

  lemma InRepr<B>(rings: seq<Ring<B>>, pool: seq<Ring<B>>, repr: set<object>)
    requires Separate(rings, pool, repr)
    ensures forall i | 0 <= i < |rings| :: rings[i] in repr && rings[i].data in repr
    ensures forall i | 0 <= i < |pool| :: pool[i] in repr && pool[i].data in repr
  {
  }

  lemma FromHeap<B>(rings: seq<Ring<B>>, pool: seq<Ring<B>>, repr: set<object>, ring: Ring<B>)
    requires Separate(rings, pool, repr) && ring !in repr && ring.data !in repr
    ensures Separate(rings + [ring], pool, repr + {ring, ring.data})
  {
  }

  lemma ToPool<B>(rings: seq<Ring<B>>, pool: seq<Ring<B>>, repr: set<object>)
    requires Separate(rings, pool, repr) && rings != []
    ensures Separate(rings[1..], pool + [rings[0]], repr)
  {
  }

  method NewRing<B>(chunk: nat, blank: B) returns (ring: Ring<B>)
    requires 0 < chunk
    ensures Sound(ring, chunk, []) && fresh(ring) && fresh(ring.data)
  {
    ring := new Ring<B>(chunk, blank);
  }

  method PopRing<B>(ring: Ring<B>, chunk: nat, ghost part: seq<B>, count: nat) returns (error: Option<Error>, left: nat)
    requires Sound(ring, chunk, part)
    modifies ring
    ensures error == if count <= |part| then None else Some(EINVAL)
    ensures Sound(ring, chunk, if error.None? then part[count..] else part)
    ensures left == if error.None? then |part| - count else |part|
  {
    error := ring.Pop(count);
    left := ring.used;
  }

  method PushRing<B>(ring: Ring<B>, chunk: nat, ghost part: seq<B>, bytes: seq<B>) returns (error: Option<Error>)
    requires Sound(ring, chunk, part)
    modifies ring, ring.data
    ensures error == if |bytes| <= chunk - |part| then None else if |bytes| > chunk then Some(EINVAL) else Some(ENOBUFS)
    ensures Sound(ring, chunk, if error.None? then part + bytes else part)
  {
    var address;
    address, error := ring.Push(bytes);
  }

  /** No two rings share anything. */
  ghost predicate Separate<B>(rings: seq<Ring<B>>, pool: seq<Ring<B>>, repr: set<object>) {
    && (forall i | 0 <= i < |rings| :: rings[i] in repr && rings[i].data in repr)
    && (forall i | 0 <= i < |pool| :: pool[i] in repr && pool[i].data in repr)
    && (forall i, j | 0 <= i < j < |rings| :: Apart(rings[i], rings[j]))
    && (forall i, j | 0 <= i < j < |pool| :: Apart(pool[i], pool[j]))
    && (forall i, j | 0 <= i < |rings| && 0 <= j < |pool| :: Apart(rings[i], pool[j]))
  }

  predicate Apart<B>(r: Ring<B>, s: Ring<B>) {
    r != s && r.data != s.data
  }

  ghost predicate Sound<B>(ring: Ring<B>, chunk: nat, part: seq<B>)
    reads ring, ring.data
  {
    ring.Valid() && ring.data.Length == chunk && ring.Contents() == part
  }
}
