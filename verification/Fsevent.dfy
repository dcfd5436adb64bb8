/** Events on the entries of a mirror, and their two-pass cloning. */
module Fsevent {
  import opened Wrappers
  import opened Memory
  import opened Value

  datatype Event = Event(id: seq<byte>, xattrs: seq<Pair>, detail: Detail)

  datatype Detail =
    | Upsert(statx: Option<Statx>, symlink: Option<CString>)
    | OnLink(kind: LinkKind, parent: seq<byte>, name: CString, rename: bool)
    | InodeXattr // an XATTR event that names no link
    | PartialUnlink(rmTime: int)
    | Delete

  const EVENT_SIZE: nat := 64  // sizeof(struct rbh_fsevent)
  const ID_SIZE: nat := 16     // sizeof(struct rbh_id)
  const STATX_SIZE: nat := 256 // sizeof(struct rbh_statx)
  const TIME_SIZE: nat := 8    // sizeof(time_t)

  // ------------------------------------------------------------------ the size pass

  /** What the size is with the detail, when it is `size` without. */
  function DetailSize(detail: Detail, size: nat): nat {
    match detail
    case Upsert(statx, symlink) =>
      (if statx.Some? then Align(size) + STATX_SIZE else size) + (if symlink.Some? then |symlink.value| + 1 else 0)
    case OnLink(_, parent, name, _) => Align(size) + ID_SIZE + |parent| + |name| + 1
    case InodeXattr => size
    case PartialUnlink(_) => size + TIME_SIZE
    case Delete => size
  }

  function EventSize(e: Event): nat {
    DetailSize(e.detail, Align(|e.id|) + MapSize(e.xattrs, |e.xattrs|))
  }

  // ------------------------------------------------------------------ where the copy pass ends

  function DetailEnd(detail: Detail, at: nat): (end: nat)
    ensures at <= end
  {
    match detail
    case Upsert(statx, symlink) =>
      (if statx.Some? then Align(at) + STATX_SIZE else at) + (if symlink.Some? then |symlink.value| + 1 else 0)
    case OnLink(_, parent, name, _) => Align(at) + ID_SIZE + |parent| + |name| + 1
    case InodeXattr => at
    case PartialUnlink(_) => at
    case Delete => at
  }

  function EventEnd(e: Event, at: nat): nat {
    DetailEnd(e.detail, MapEnd(e.xattrs, at + |e.id|))
  }

  lemma DetailDominates(detail: Detail, base: nat, size: nat, at: nat)
    requires base % ALIGNMENT == 0 && at <= base + size
    ensures DetailEnd(detail, at) <= base + DetailSize(detail, size)
  {
    AlignMonotone(at, base + size);
    AlignShift(base, size);
  }

  /** The block that the size pass asks for is large enough for the copy pass. */
  lemma EventDominates(e: Event, base: nat)
    requires base % ALIGNMENT == 0
    ensures EventEnd(e, base) <= base + EventSize(e)
  {
    AlignShift(base, |e.id|);
    MapDominates(e.xattrs, base + Align(|e.id|), base + |e.id|);
    DetailDominates(e.detail, base, Align(|e.id|) + MapSize(e.xattrs, |e.xattrs|), MapEnd(e.xattrs, base + |e.id|));
  }

  /** What has to be allocated: copying to any aligned address ends within that many bytes. */
  method FseventDataSize(e: Event) returns (size: nat)
    ensures size == EventSize(e)
    ensures forall base: nat | base % ALIGNMENT == 0 :: EventEnd(e, base) <= base + size
  {
    forall base: nat | base % ALIGNMENT == 0 ensures EventEnd(e, base) <= base + EventSize(e) {
      EventDominates(e, base);
    }
    size := Align(|e.id|);
    var more := ValueMapDataSize(e.xattrs);
    size := size + more;
    match e.detail
    case Upsert(statx, symlink) =>
      if statx.Some? {
        size := Align(size);
        size := size + STATX_SIZE;
      }
      if symlink.Some? {
        size := size + |symlink.value| + 1;
      }
    case OnLink(_, parent, name, _) =>
      size := Align(size);
      size := size + ID_SIZE;
      size := size + |parent|;
      size := size + |name| + 1;
    case InodeXattr =>
    case PartialUnlink(_) => size := size + TIME_SIZE;
    case Delete =>
  }

  // ------------------------------------------------------------------ what a block denotes

  ghost predicate StatxIn(mem: seq<Cell>, p: nat, statx: Statx, lo: nat, hi: nat) {
    lo <= p && p + STATX_SIZE <= hi && p < |mem| && mem[p] == StatxCell(statx)
  }

  ghost predicate IdIn(mem: seq<Cell>, head: IdHead, id: seq<byte>, lo: nat, hi: nat) {
    head.size == |id| && BytesIn(mem, head.data, id, lo, hi)
  }

  ghost predicate MapIn(mem: seq<Cell>, head: PairsHead, pairs: seq<Pair>, lo: nat, hi: nat) {
    head.count == |pairs| && MapDenotes(mem, head.pairs, pairs, lo, hi)
  }

  ghost predicate DetailDenotes(mem: seq<Cell>, head: DetailHead, detail: Detail, lo: nat, hi: nat) {
    match detail
    case Upsert(statx, symlink) =>
      && head.UpsertHead? && (head.statx.Some? <==> statx.Some?) && (head.symlink.Some? <==> symlink.Some?)
      && (statx.Some? ==> StatxIn(mem, head.statx.value, statx.value, lo, hi))
      && (symlink.Some? ==> StringIn(mem, head.symlink.value, symlink.value, lo, hi))
    case OnLink(kind, parent, name, rename) =>
      && head.LinkHead? && head.kind == kind && head.rename == rename && StringIn(mem, head.name, name, lo, hi)
      && lo <= head.parent && head.parent + ID_SIZE <= hi && head.parent < |mem| && mem[head.parent].IdCell?
      && IdIn(mem, mem[head.parent].id, parent, lo, hi)
    case InodeXattr => head == InodeXattrHead
    case PartialUnlink(t) => head == PartialUnlinkHead(t)
    case Delete => head == DeleteHead
  }

  /** The structure at `p` stands for `e`; all it points at lies in `lo..hi`. */
  ghost predicate EventDenotes(mem: seq<Cell>, p: nat, e: Event, lo: nat, hi: nat) {
    && p < |mem| && mem[p].EventCell? && IdIn(mem, mem[p].eventId, e.id, lo, hi)
    && MapIn(mem, mem[p].xattrs, e.xattrs, lo, hi) && DetailDenotes(mem, mem[p].detail, e.detail, lo, hi)
  }

  lemma IdKept(mem: seq<Cell>, mem': seq<Cell>, head: IdHead, id: seq<byte>, lo: nat, hi: nat, lo': nat, hi': nat)
    requires IdIn(mem, head, id, lo, hi) && lo' <= lo && hi <= hi' && Same(mem, mem', lo, hi)
    ensures IdIn(mem', head, id, lo', hi')
  {
  }

  lemma StringKept(mem: seq<Cell>, mem': seq<Cell>, q: nat, s: CString, lo: nat, hi: nat, lo': nat, hi': nat)
    requires StringIn(mem, q, s, lo, hi) && lo' <= lo && hi <= hi' && Same(mem, mem', lo, hi)
    ensures StringIn(mem', q, s, lo', hi')
  {
  }

  lemma DetailKept(mem: seq<Cell>, mem': seq<Cell>, head: DetailHead, detail: Detail, lo: nat, hi: nat, lo': nat, hi': nat)
    requires DetailDenotes(mem, head, detail, lo, hi) && lo' <= lo && hi <= hi' && Same(mem, mem', lo, hi)
    ensures DetailDenotes(mem', head, detail, lo', hi')
  {
    match detail
    case Upsert(statx, symlink) =>
      if symlink.Some? {
        StringKept(mem, mem', head.symlink.value, symlink.value, lo, hi, lo', hi');
      }
    case OnLink(_, parent, name, _) =>
      StringKept(mem, mem', head.name, name, lo, hi, lo', hi');
      IdKept(mem, mem', mem[head.parent].id, parent, lo, hi, lo', hi');
    case _ =>
  }

  lemma IdUnique(mem: seq<Cell>, head: IdHead, id: seq<byte>, other: seq<byte>, lo: nat, hi: nat)
    requires IdIn(mem, head, id, lo, hi) && IdIn(mem, head, other, lo, hi)
    ensures id == other
  {
    forall i | 0 <= i < |id| ensures id[i] == other[i] {
      assert mem[head.data + i] == Byte(id[i]) && mem[head.data + i] == Byte(other[i]);
    }
  }

  /** A structure stands for one event only. */
  lemma EventDenotesUnique(mem: seq<Cell>, p: nat, e: Event, f: Event, lo: nat, hi: nat)
    requires EventDenotes(mem, p, e, lo, hi) && EventDenotes(mem, p, f, lo, hi)
    ensures e == f
  {
    IdUnique(mem, mem[p].eventId, e.id, f.id, lo, hi);
    MapDenotesUnique(mem, mem[p].xattrs.pairs, e.xattrs, f.xattrs, lo, hi);
    var head := mem[p].detail;
    match e.detail
    case Upsert(statx, symlink) =>
      if symlink.Some? {
        StringUnique(mem, head.symlink.value, symlink.value, f.detail.symlink.value);
      }
    case OnLink(_, parent, name, _) =>
      StringUnique(mem, head.name, name, f.detail.name);
      IdUnique(mem, mem[head.parent].id, parent, f.detail.parent, lo, hi);
    case _ =>
  }

  // ------------------------------------------------------------------ the copy pass

  method IdCopy(mem: array<Cell>, id: seq<byte>, data: nat, size: nat, ghost limit: nat)
    returns (ok: bool, head: IdHead, data': nat, size': nat)
    requires limit <= mem.Length && size == Room(limit, data)
    modifies mem
    ensures data + |id| <= limit ==> ok
    ensures ok ==> data' == data + |id| && size' == Room(limit, data') && IdIn(mem[..], head, id, data, data')
    ensures OnlyWrote(old(mem[..]), mem[..], data, if ok then data' else data)
  {
    ok, data', size' := PutBytes(mem, id, data, size, limit);
    head := IdHead(data, |id|);
  }

  method StatxCopy(mem: array<Cell>, statx: Statx, data: nat, size: nat, ghost limit: nat)
    returns (ok: bool, at: nat, data': nat, size': nat)
    requires limit <= mem.Length && size == Room(limit, data)
    modifies mem
    ensures Align(data) + STATX_SIZE <= limit ==> ok
    ensures ok ==> data' == Align(data) + STATX_SIZE && size' == Room(limit, data') && StatxIn(mem[..], at, statx, data, data')
    ensures OnlyWrote(old(mem[..]), mem[..], data, if ok then data' else data)
  {
    var tmp;
    tmp, data', size' := AlignedAlloc(STATX_SIZE, data, size, limit);
    if tmp.None? {
      return false, 0, data, size;
    }
    mem[tmp.value] := StatxCell(statx);
    return true, tmp.value, data', size';
  }

  method UpsertCopy(mem: array<Cell>, detail: Detail, data: nat, size: nat, ghost limit: nat)
    returns (ok: bool, head: DetailHead, data': nat, size': nat)
    requires detail.Upsert? && limit <= mem.Length && size == Room(limit, data)
    modifies mem
    ensures DetailEnd(detail, data) <= limit ==> ok
    ensures ok ==> data' == DetailEnd(detail, data) && size' == Room(limit, data')
    ensures ok ==> DetailDenotes(mem[..], head, detail, data, data')
    ensures OnlyWrote(old(mem[..]), mem[..], data, if ok then data' else mem.Length)
  {
    hide Align;
    head := UpsertHead(None, None);
    ok, data', size' := true, data, size;
    if detail.statx.Some? {
      var at;
      ok, at, data', size' := StatxCopy(mem, detail.statx.value, data', size', limit);
      if !ok {
        return;
      }
      head := head.(statx := Some(at));
    }
    if detail.symlink.Some? {
      head := head.(symlink := Some(data'));
      ok, data', size' := PutBytes(mem, Terminated(detail.symlink.value), data', size', limit);
    }
  }

  method LinkCopy(mem: array<Cell>, detail: Detail, data: nat, size: nat, ghost limit: nat)
    returns (ok: bool, head: DetailHead, data': nat, size': nat)
    requires detail.OnLink? && limit <= mem.Length && size == Room(limit, data)
    modifies mem
    ensures DetailEnd(detail, data) <= limit ==> ok
    ensures ok ==> data' == DetailEnd(detail, data) && size' == Room(limit, data')
    ensures ok ==> DetailDenotes(mem[..], head, detail, data, data')
    ensures OnlyWrote(old(mem[..]), mem[..], data, if ok then data' else mem.Length)
  {
    hide Align;
    head := DeleteHead;
    var at, id;
    at, data', size' := AlignedAlloc(ID_SIZE, data, size, limit);
    if at.None? {
      return false, head, data, size;
    }
    ghost var lo := data';
    ok, id, data', size' := IdCopy(mem, detail.parent, data', size', limit);
    if !ok {
      return;
    }
    mem[at.value] := IdCell(id);
    var name := data';
    ghost var m := mem[..];
    ok, data', size' := PutBytes(mem, Terminated(detail.name), data', size', limit);
    if !ok {
      return;
    }
    head := LinkHead(detail.kind, at.value, name, detail.rename);
    IdKept(m, mem[..], id, detail.parent, lo, name, data, data');
  }

  method DetailCopy(mem: array<Cell>, detail: Detail, data: nat, size: nat, ghost limit: nat)
    returns (ok: bool, head: DetailHead, data': nat, size': nat)
    requires limit <= mem.Length && size == Room(limit, data)
    modifies mem
    ensures DetailEnd(detail, data) <= limit ==> ok
    ensures ok ==> data' == DetailEnd(detail, data) && size' == Room(limit, data')
    ensures ok ==> DetailDenotes(mem[..], head, detail, data, data')
    ensures OnlyWrote(old(mem[..]), mem[..], data, if ok then data' else mem.Length)
  {
    ok, data', size' := true, data, size;
    match detail
    case Upsert(_, _) => ok, head, data', size' := UpsertCopy(mem, detail, data, size, limit);
    case OnLink(_, _, _, _) => ok, head, data', size' := LinkCopy(mem, detail, data, size, limit);
    case InodeXattr => head := InodeXattrHead;
    case PartialUnlink(t) => head := PartialUnlinkHead(t);
    case Delete => head := DeleteHead;
  }

  /** Copies `e` to the structure at `dest`, what it points at from `data` on. */
  method FseventCopy(mem: array<Cell>, dest: nat, e: Event, data: nat, size: nat, ghost limit: nat)
    returns (ok: bool, data': nat, size': nat)
    requires limit <= mem.Length && dest + EVENT_SIZE <= data && dest + EVENT_SIZE <= mem.Length && size == Room(limit, data)
    modifies mem
    ensures EventEnd(e, data) <= limit ==> ok
    ensures ok ==> data' == EventEnd(e, data) && size' == Room(limit, data') && EventDenotes(mem[..], dest, e, data, data')
    ensures Copied(old(mem[..]), mem[..], dest, data, if ok then data' else mem.Length)
  {
    hide DetailDenotes, MapDenotes, DetailEnd, MapEnd, Align;
    var id, detail;
    ok, id, data', size' := IdCopy(mem, e.id, data, size, limit);
    if !ok {
      return;
    }
    ghost var m1, d1 := mem[..], data';
    var pairs := PairsHead(Align(data'), |e.xattrs|);
    ok, data', size' := ValueMapCopy(mem, e.xattrs, data', size', limit);
    if !ok {
      return;
    }
    ghost var m2, d2 := mem[..], data';
    ok, detail, data', size' := DetailCopy(mem, e.detail, data', size', limit);
    if !ok {
      return;
    }
    ghost var m3 := mem[..];
    mem[dest] := EventCell(id, pairs, detail);
    IdKept(m1, mem[..], id, e.id, data, d1, data, data');
    MapDenotesKept(m2, mem[..], pairs.pairs, e.xattrs, d1, d2, data, data');
    DetailKept(m3, mem[..], detail, e.detail, d2, data', data, data');
  }

  /** One block holds an event and all it points at: no assertion of the copy fails, and the
      block stands for the event it was made from. */
  method FseventClone(e: Event) returns (block: array<Cell>)
    ensures fresh(block) && block.Length == EVENT_SIZE + EventSize(e)
    ensures EventDenotes(block[..], 0, e, EVENT_SIZE, block.Length)
  {
    hide DetailDenotes, MapDenotes, DetailEnd, MapEnd, Align;
    var size := FseventDataSize(e);
    block := new Cell[EVENT_SIZE + size](_ => Blank);
    var ok, data', size' := FseventCopy(block, 0, e, EVENT_SIZE, size, block.Length);
    assert ok;
    ghost var m := block[..];
    IdKept(m, m, m[0].eventId, e.id, EVENT_SIZE, data', EVENT_SIZE, block.Length);
    MapDenotesKept(m, m, m[0].xattrs.pairs, e.xattrs, EVENT_SIZE, data', EVENT_SIZE, block.Length);
    DetailKept(m, m, m[0].detail, e.detail, EVENT_SIZE, data', EVENT_SIZE, block.Length);
  }
}
