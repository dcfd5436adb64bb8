/** Blocks of memory that are sized by one pass and filled by another.

    A block is an array of cells indexed by address; its start is aligned. A structure sits in
    the cell of its first byte and owns the bytes up to its size; strings are one cell a byte.
 */
module Memory {
  import opened Wrappers

  /** A NUL-terminated string, without its terminator. */
  type CString = s: seq<byte> | 0 !in s

  datatype Scalar =
    | Boolean(b: bool) | Int32(i: int) | Uint32(u: nat) | Int64(i: int) | Uint64(u: nat) | Double(bits: nat) | Null

  /** What a `struct rbh_value` holds; pointers are addresses. */
  datatype ValueHead =
    | ScalarHead(scalar: Scalar)
    | StringHead(text: nat)
    | BinaryHead(data: nat, size: nat)
    | RegexHead(text: nat, options: nat)
    | SequenceHead(values: nat, count: nat)
    | MapHead(pairs: nat, count: nat)

  /** What a `struct rbh_filter_field` holds. */
  datatype FieldHead = PropertyHead(property: nat) | StatxHead(mask: nat) | XattrHead(inode: bool, name: Option<nat>)

  /** What a `struct rbh_filter` holds. The value of a comparison is a structure of its own. */
  datatype FilterHead =
    | CompareHead(op: nat, field: FieldHead)
    | LogicalHead(op: nat, filters: nat, count: nat)
    | ArrayHead(op: nat, field: FieldHead, filters: nat, count: nat, useSubfields: bool)
    | GetHead(op: nat, field: FieldHead, fsentry: nat, filter: nat)

  /** An identifier: where its bytes are, and how many. */
  datatype IdHead = IdHead(data: nat, size: nat)

  /** What a `struct rbh_value_map` holds. */
  datatype PairsHead = PairsHead(pairs: nat, count: nat)

  /** Inode attributes: copied as a whole; only the type of the file is ever looked at. */
  datatype Statx = Statx(mask: bv32, mode: bv16, others: seq<nat>)

  /** The events that name a link. */
  datatype LinkKind = LinkEvent | UnlinkEvent | NsXattrEvent

  /** What the union of a `struct rbh_fsevent` holds, with the type that selects it. */
  datatype DetailHead =
    | UpsertHead(statx: Option<nat>, symlink: Option<nat>)
    | LinkHead(kind: LinkKind, parent: nat, name: nat, rename: bool)
    | InodeXattrHead
    | PartialUnlinkHead(rmTime: int)
    | DeleteHead

  datatype Property = IdProperty | ParentProperty | NameProperty | StatxProperty | NsProperty | InodeProperty | SymlinkProperty

  datatype Cell =
    | Blank
    | Byte(b: byte)
    | ValueCell(head: ValueHead)
    | PairCell(key: nat, value: Option<nat>)
    | FilterCell(filter: FilterHead)
    | PointerCell(target: Option<nat>)
    | IdCell(id: IdHead)
    | StatxCell(statx: Statx)
    | EventCell(eventId: IdHead, xattrs: PairsHead, detail: DetailHead)
    | EntryCell(
        mask: set<Property>, entryId: Option<IdHead>, parent: Option<IdHead>, name: Option<nat>, attributes: Option<nat>,
        ns: Option<PairsHead>, inode: Option<PairsHead>)

  // ------------------------------------------------------------------ alignment

  const ALIGNMENT: nat := 8
  const VALUE_SIZE: nat := 24 // sizeof(struct rbh_value)

  /** The first multiple of the alignment from `n` on. */
  function Align(n: nat): (r: nat)
    ensures n <= r < n + ALIGNMENT && r % ALIGNMENT == 0
    ensures n % ALIGNMENT == 0 ==> r == n
  {
    (n + ALIGNMENT - 1) / ALIGNMENT * ALIGNMENT
  }

  lemma AlignMonotone(a: nat, b: nat)
    requires a <= b
    ensures Align(a) <= Align(b)
  {
  }

  lemma AlignShift(base: nat, n: nat)
    requires base % ALIGNMENT == 0
    ensures Align(base + n) == base + Align(n)
  {
    var a, q := Align(base + n) - base, base / ALIGNMENT;
    assert base == ALIGNMENT * q;
    assert a % ALIGNMENT == 0 && n <= a < n + ALIGNMENT;
    AlignedOnce(a, Align(n), n);
  }

  /** There is one multiple of the alignment in any stretch of that length. */
  lemma AlignedOnce(a: nat, b: nat, n: nat)
    requires a % ALIGNMENT == 0 && b % ALIGNMENT == 0 && n <= a < n + ALIGNMENT && n <= b < n + ALIGNMENT
    ensures a == b
  {
  }

  /** The bytes left before `limit`. Aligning may step over the end; nothing is left then. */
  function Room(limit: nat, data: nat): nat {
    if data <= limit then limit - data else 0
  }

  /** Carves `need` aligned bytes out of what is left. */
  method AlignedAlloc(need: nat, data: nat, size: nat, ghost limit: nat) returns (at: Option<nat>, data': nat, size': nat)
    requires size == Room(limit, data)
    ensures at.Some? ==> at.value == Align(data) && data' == Align(data) + need && size' == Room(limit, data')
    ensures at.Some? <==> need == 0 || Align(data) + need <= limit
    ensures at.None? ==> data' == data && size' == size
  {
    var offset := Align(data) - data;
    var bufsize := if size > offset then size - offset else 0;
    if bufsize < need {
      return None, data, size;
    }
    return Some(data + offset), data + offset + need, bufsize - need;
  }

  // ------------------------------------------------------------------ bytes

  ghost predicate BytesAt(mem: seq<Cell>, p: nat, bytes: seq<byte>) {
    bytes == [] || (p + |bytes| <= |mem| && forall i :: 0 <= i < |bytes| ==> mem[p + i] == Byte(bytes[i]))
  }

  /** Outside `lo..hi`, nothing changed. */
  ghost predicate OnlyWrote(before: seq<Cell>, after: seq<Cell>, lo: nat, hi: nat) {
    |before| == |after| && forall i :: 0 <= i < |before| && !(lo <= i < hi) ==> after[i] == before[i]
  }

  /** Inside `lo..hi`, nothing changed. */
  ghost predicate Same(mem: seq<Cell>, mem': seq<Cell>, lo: nat, hi: nat) {
    |mem'| == |mem| && forall i :: lo <= i < hi && i < |mem| ==> mem'[i] == mem[i]
  }

  method CopyBytes(mem: array<Cell>, at: nat, bytes: seq<byte>)
    requires at + |bytes| <= mem.Length
    modifies mem
    ensures BytesAt(mem[..], at, bytes)
    ensures forall i :: 0 <= i < mem.Length && !(at <= i < at + |bytes|) ==> mem[i] == old(mem[i])
  {
    for k := 0 to |bytes|
      invariant forall i :: 0 <= i < k ==> mem[at + i] == Byte(bytes[i])
      invariant forall i :: 0 <= i < mem.Length && !(at <= i < at + k) ==> mem[i] == old(mem[i])
    {
      mem[at + k] := Byte(bytes[k]);
    }
  }

  /** Writes the bytes at `data` if they fit. */
  method PutBytes(mem: array<Cell>, bytes: seq<byte>, data: nat, size: nat, ghost limit: nat)
    returns (ok: bool, data': nat, size': nat)
    requires limit <= mem.Length && size == Room(limit, data)
    modifies mem
    ensures ok <==> |bytes| <= Room(limit, data)
    ensures ok ==> data' == data + |bytes| && size' == Room(limit, data') && BytesAt(mem[..], data, bytes)
    ensures OnlyWrote(old(mem[..]), mem[..], data, if ok then data + |bytes| else data)
  {
    if size < |bytes| {
      return false, data, size;
    }
    if bytes != [] {
      CopyBytes(mem, data, bytes);
    }
    return true, data + |bytes|, size - |bytes|;
  }

  /** What a string occupies: its bytes and a terminator. */
  function Terminated(s: CString): seq<byte> {
    s + [0]
  }

  /** A terminated string is read back as itself. */
  lemma StringUnique(mem: seq<Cell>, p: nat, s: CString, t: CString)
    requires BytesAt(mem, p, Terminated(s)) && BytesAt(mem, p, Terminated(t))
    ensures s == t
  {
    forall i | 0 <= i <= |s| && i <= |t| ensures Terminated(s)[i] == Terminated(t)[i] {
      assert mem[p + i] == Byte(Terminated(s)[i]) && mem[p + i] == Byte(Terminated(t)[i]);
    }
    var n := if |s| <= |t| then |s| else |t|;
    assert Terminated(s)[n] == Terminated(t)[n];
    assert n == |s| == |t|;
    forall i | 0 <= i < n ensures s[i] == t[i] {
      assert Terminated(s)[i] == Terminated(t)[i];
    }
  }
}
