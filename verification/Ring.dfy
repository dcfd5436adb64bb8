/** Byte rings: one reader (`Ring`) and several readers over one ring (`MultiRing`).

    The buffer is mapped twice in a row by the source, so that any window is contiguous; here
    it is an array indexed modulo its size. `B` is the type of one byte.
 */
module Ring {
  import opened Wrappers

  datatype Error = EINVAL | ENOBUFS

  // ------------------------------------------------------------------ positions and slots

  /** Stepping `k` slots from the slot of position `a`. */
  lemma Wrap(a: nat, k: nat, size: nat)
    requires 0 < size && k <= size
    ensures (a + k) % size == if a % size + k < size then a % size + k else a % size + k - size
  {
    var q, r := a / size, a % size;
    assert a + k == size * q + (r + k);
    if r + k < size {
      ModUnique(a + k, q, r + k, size);
    } else {
      assert size * (q + 1) == size * q + size;
      ModUnique(a + k, q + 1, r + k - size, size);
    }
  }

  lemma ModUnique(a: nat, q: nat, r: nat, size: nat)
    requires 0 < size && r < size && a == size * q + r
    ensures a % size == r
  {
    var d := a / size - q;
    assert a == size * (a / size) + a % size;
    assert size * d == r - a % size;
  }

  /** Positions less than one turn apart have different slots. */
  lemma SlotsDiffer(p: nat, q: nat, size: nat)
    requires 0 < size && p < q < p + size
    ensures p % size != q % size
  {
    Wrap(p, q - p, size);
  }

  /** `data` holds the last `used` bytes of the history `log`, each at the slot of its position. */
  ghost predicate Holds<B>(data: seq<B>, head: nat, used: nat, log: seq<B>) {
    && 0 < |data| && used <= |data| && used <= |log| && head == (|log| - used) % |data|
    && forall q :: |log| - used <= q < |log| ==> data[q % |data|] == log[q]
  }

  /** Writing the next byte of the history in the slot after the window. */
  lemma WriteExtends<B>(data: seq<B>, head: nat, used: nat, log: seq<B>, b: B)
    requires Holds(data, head, used, log) && used < |data|
    ensures Holds(data[(head + used) % |data| := b], head, used + 1, log + [b])
  {
    var size := |data|;
    Wrap(|log| - used, used, size);
    Wrap(head, used, size);
    assert head % size == head by { ModUnique(head, 0, head, size); }
    var data', log' := data[(head + used) % size := b], log + [b];
    forall q | |log'| - (used + 1) <= q < |log'| ensures data'[q % size] == log'[q] {
      if q < |log| {
        SlotsDiffer(q, |log|, size);
      }
    }
  }

  /** Forgetting the `count` oldest bytes. */
  lemma PopShrinks<B>(data: seq<B>, head: nat, used: nat, log: seq<B>, count: nat)
    requires Holds(data, head, used, log) && count <= used
    ensures var h := head + count;
            Holds(data, if h >= |data| then h - |data| else h, used - count, log)
  {
    Wrap(|log| - used, count, |data|);
  }

  /** The single-reader ring. */
  class Ring<B> {
    const data: array<B>
    var head: nat
    var used: nat
    ghost var log: seq<B> // everything ever pushed

    ghost predicate Valid()
      reads this, data
    {
      Holds(data[..], head, used, log)
    }

    /** The bytes in the ring, oldest first. */
    ghost function Contents(): seq<B>
      reads this, data
      requires Valid()
    {
      log[|log| - used..]
    }

    constructor (size: nat, blank: B)
      requires 0 < size
      ensures Valid() && fresh(data) && data.Length == size && log == [] && used == 0
    {
      data := new B[size](_ => blank);
      head, used, log := 0, 0, [];
    }

    /** Returns the address of the pushed bytes. Refuses exactly what does not fit: for good
        (EINVAL) when it is larger than the ring, for now (ENOBUFS) otherwise. */
    method Push(bytes: seq<B>) returns (address: nat, error: Option<Error>)
      requires Valid()
      modifies this`used, this`log, data
      ensures Valid() && address == |old(log)| % data.Length
      ensures error == if |bytes| <= data.Length - old(used) then None
                       else if |bytes| > data.Length then Some(EINVAL) else Some(ENOBUFS)
      ensures log == if error.None? then old(log) + bytes else old(log)
      ensures used == if error.None? then old(used) + |bytes| else old(used)
      ensures error.Some? || bytes == [] ==> data[..] == old(data[..])
    {
      error := None;
      address := (head + used) % data.Length;
      assert address == |log| % data.Length by {
        Wrap(|log| - used, used, data.Length);
        Wrap(head, used, data.Length);
        ModUnique(head, 0, head, data.Length);
      }
      if |bytes| == 0 {
        assert log + bytes == log;
        return;
      }
      if data.Length - used < |bytes| {
        error := Some(if |bytes| > data.Length then EINVAL else ENOBUFS);
        return;
      }
      for i := 0 to |bytes|
        invariant Valid() && used == old(used) + i && log == old(log) + bytes[..i]
      {
        assert bytes[..i + 1] == bytes[..i] + [bytes[i]];
        WriteExtends(data[..], head, used, log, bytes[i]);
        ghost var before := data[..];
        data[(head + used) % data.Length] := bytes[i];
        assert data[..] == before[(head + used) % data.Length := bytes[i]];
        used, log := used + 1, log + [bytes[i]];
      }
      assert bytes[..|bytes|] == bytes;
    }

    /** The readable bytes, in order. */
    method Peek() returns (bytes: seq<B>)
      requires Valid()
      ensures bytes == Contents()
    {
      bytes := ReadFrom(head, used);
      Windowed(|log| - used, used);
    }

    method Pop(count: nat) returns (error: Option<Error>)
      requires Valid()
      modifies this`head, this`used
      ensures Valid()
      ensures error == if count <= old(used) then None else Some(EINVAL)
      ensures used == if error.None? then old(used) - count else old(used)
      ensures error.Some? || count == 0 ==> head == old(head)
    {
      if count > used {
        return Some(EINVAL);
      }
      PopShrinks(data[..], head, used, log, count);
      head := head + count;
      if head >= data.Length {
        head := head - data.Length;
      }
      used := used - count;
      return None;
    }

    /** What lies in the buffer from `address` on, wrapping. */
    function ReadFrom(address: nat, count: nat): (bytes: seq<B>)
      requires 0 < data.Length
      reads data
    {
      seq(count, i requires 0 <= i < count reads data => data[(address + i) % data.Length])
    }

    /** Bytes still in the window are read back from the address they were pushed at. */
    lemma Windowed(at: nat, count: nat)
      requires Valid() && |log| - used <= at && at + count <= |log|
      ensures ReadFrom(at % data.Length, count) == log[at..at + count]
    {
      var bytes, size := ReadFrom(at % data.Length, count), data.Length;
      forall i | 0 <= i < count ensures bytes[i] == log[at + i] {
        Wrap(at, i, size);
        Wrap(at % size, i, size);
        ModUnique(at % size, 0, at % size, size);
        assert (at % size + i) % size == (at + i) % size;
        assert data[..][(at + i) % size] == log[at + i];
      }
    }
  }
}
