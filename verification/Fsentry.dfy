/** Entries of a mirror: any subset of their fields, packed into one block. */
module Fsentry {
  import opened Wrappers
  import opened Memory
  import opened Value
  import opened Fsevent

  /** The arguments of `rbh_fsentry_new`; an absent one is a null pointer. */
  datatype Fsentry = Fsentry(
    id: Option<seq<byte>>,
    parent: Option<seq<byte>>,
    name: Option<CString>,
    statx: Option<Statx>,
    ns: Option<seq<Pair>>,
    inode: Option<seq<Pair>>,
    symlink: Option<CString>)

  const ENTRY_SIZE: nat := 88 // sizeof(struct rbh_fsentry), and the offset of its last member

  /** A link target was given for something that is known not to be a symbolic link. */
  predicate Contradicts(f: Fsentry) {
    f.symlink.Some? && f.statx.Some? && f.statx.value.mask & 1 != 0 && f.statx.value.mode & 0xF000 != 0xA000
  }

  datatype FileType = Fifo | CharacterDevice | Directory | BlockDevice | RegularFile | SymbolicLink | Socket

  /** The bits of a mode that tell the type of a file (`<sys/stat.h>`). */
  function TypeBits(t: FileType): bv16 {
    match t
    case Fifo => 0x1000
    case CharacterDevice => 0x2000
    case Directory => 0x4000
    case BlockDevice => 0x6000
    case RegularFile => 0x8000
    case SymbolicLink => 0xA000
    case Socket => 0xC000
  }

  predicate KnownType(statx: Option<Statx>, t: FileType) {
    statx.Some? && statx.value.mask & 1 == 1 && statx.value.mode & 0xF000 == TypeBits(t)
  }

  /** Refused is a link target for a file of any known type but that of a symbolic link; nothing is
      refused without a target or without a type. */
  lemma ContradictsIff(f: Fsentry, t: FileType)
    ensures KnownType(f.statx, t) ==> (Contradicts(f) <==> f.symlink.Some? && t != SymbolicLink)
    ensures f.symlink.None? || f.statx.None? || f.statx.value.mask & 1 == 0 ==> !Contradicts(f)
  {
    assert TypeBits(t) == 0xA000 <==> t == SymbolicLink;
  }

  function Present(f: Fsentry): set<Property> {
    (if f.id.Some? then {IdProperty} else {}) + (if f.parent.Some? then {ParentProperty} else {})
    + (if f.name.Some? then {NameProperty} else {}) + (if f.statx.Some? then {StatxProperty} else {})
    + (if f.ns.Some? then {NsProperty} else {}) + (if f.inode.Some? then {InodeProperty} else {})
    + (if f.symlink.Some? then {SymlinkProperty} else {})
  }

  // ------------------------------------------------------------------ the size pass

  function TextSize(s: Option<CString>): nat {
    if s.Some? then |s.value| + 1 else 0
  }

  function IdSize(id: Option<seq<byte>>): nat {
    if id.Some? then |id.value| else 0
  }

  /** What comes before anything that is aligned. */
  function BytesSize(f: Fsentry): nat {
    TextSize(f.symlink) + IdSize(f.id) + IdSize(f.parent) + TextSize(f.name)
  }

  function StatxSize(statx: Option<Statx>, size: nat): nat {
    if statx.Some? then Align(size) + STATX_SIZE else size
  }

  function XattrsSize(pairs: Option<seq<Pair>>, size: nat): nat {
    if pairs.Some? then Align(size) + MapSize(pairs.value, |pairs.value|) else size
  }

  function EntrySize(f: Fsentry): nat {
    XattrsSize(f.inode, XattrsSize(f.ns, StatxSize(f.statx, BytesSize(f))))
  }

  // ------------------------------------------------------------------ where the fill pass ends

  function XattrsEnd(pairs: Option<seq<Pair>>, at: nat): (end: nat)
    ensures at <= end
  {
    if pairs.Some? then MapEnd(pairs.value, at) else at
  }

  lemma XattrsDominate(pairs: Option<seq<Pair>>, base: nat, size: nat, at: nat)
    requires base % ALIGNMENT == 0 && at <= base + size
    ensures XattrsEnd(pairs, at) <= base + XattrsSize(pairs, size)
  {
    if pairs.Some? {
      AlignMonotone(at, base + size);
      AlignShift(base, size);
      MapDominates(pairs.value, base + Align(size), at);
    }
  }

  function EntryEnd(f: Fsentry, at: nat): nat {
    XattrsEnd(f.inode, XattrsEnd(f.ns, StatxSize(f.statx, at + BytesSize(f))))
  }

  /** The block that the size pass asks for is large enough for the fill pass. */
  lemma EntryDominates(f: Fsentry, base: nat)
    requires base % ALIGNMENT == 0
    ensures EntryEnd(f, base) <= base + EntrySize(f)
  {
    var size, at := StatxSize(f.statx, BytesSize(f)), StatxSize(f.statx, base + BytesSize(f));
    assert at <= base + size by {
      AlignShift(base, BytesSize(f));
    }
    XattrsDominate(f.ns, base, size, at);
    XattrsDominate(f.inode, base, XattrsSize(f.ns, size), XattrsEnd(f.ns, at));
  }

  // ------------------------------------------------------------------ what a block denotes

  ghost predicate OptionalId(mem: seq<Cell>, head: Option<IdHead>, id: Option<seq<byte>>, lo: nat, hi: nat) {
    (head.Some? <==> id.Some?) && (id.Some? ==> IdIn(mem, head.value, id.value, lo, hi))
  }

  ghost predicate OptionalString(mem: seq<Cell>, at: Option<nat>, s: Option<CString>, lo: nat, hi: nat) {
    (at.Some? <==> s.Some?) && (s.Some? ==> StringIn(mem, at.value, s.value, lo, hi))
  }

  ghost predicate OptionalStatx(mem: seq<Cell>, at: Option<nat>, statx: Option<Statx>, lo: nat, hi: nat) {
    (at.Some? <==> statx.Some?) && (statx.Some? ==> StatxIn(mem, at.value, statx.value, lo, hi))
  }

  ghost predicate OptionalMap(mem: seq<Cell>, head: Option<PairsHead>, pairs: Option<seq<Pair>>, lo: nat, hi: nat) {
    (head.Some? <==> pairs.Some?) && (pairs.Some? ==> MapIn(mem, head.value, pairs.value, lo, hi))
  }

  /** What the fields in front of anything aligned stand for; a link target sits at `lo`. */
  ghost predicate BytesDenote(
    mem: seq<Cell>, id: Option<IdHead>, parent: Option<IdHead>, name: Option<nat>, f: Fsentry, lo: nat, hi: nat)
  {
    && OptionalId(mem, id, f.id, lo, hi) && OptionalId(mem, parent, f.parent, lo, hi)
    && OptionalString(mem, name, f.name, lo, hi) && (f.symlink.Some? ==> StringIn(mem, lo, f.symlink.value, lo, hi))
  }

  /** The mask names exactly the fields that are there. */
  ghost predicate MaskTells(mask: set<Property>, f: Fsentry) {
    && (IdProperty in mask <==> f.id.Some?) && (ParentProperty in mask <==> f.parent.Some?)
    && (NameProperty in mask <==> f.name.Some?) && (StatxProperty in mask <==> f.statx.Some?)
    && (NsProperty in mask <==> f.ns.Some?) && (InodeProperty in mask <==> f.inode.Some?)
    && (SymlinkProperty in mask <==> f.symlink.Some?)
  }

  lemma PresentTells(f: Fsentry)
    ensures MaskTells(Present(f), f)
  {
  }

  /** The structure at `p` stands for `f`; all it points at lies in `lo..hi`. */
  ghost predicate EntryDenotes(mem: seq<Cell>, p: nat, f: Fsentry, lo: nat, hi: nat) {
    && p < |mem| && mem[p].EntryCell? && MaskTells(mem[p].mask, f)
    && BytesDenote(mem, mem[p].entryId, mem[p].parent, mem[p].name, f, lo, hi)
    && OptionalStatx(mem, mem[p].attributes, f.statx, lo, hi)
    && OptionalMap(mem, mem[p].ns, f.ns, lo, hi) && OptionalMap(mem, mem[p].inode, f.inode, lo, hi)
  }

  lemma OptionalIdKept(mem: seq<Cell>, mem': seq<Cell>, head: Option<IdHead>, id: Option<seq<byte>>, lo: nat, hi: nat, lo': nat, hi': nat)
    requires OptionalId(mem, head, id, lo, hi) && lo' <= lo && hi <= hi' && Same(mem, mem', lo, hi)
    ensures OptionalId(mem', head, id, lo', hi')
  {
    if id.Some? {
      IdKept(mem, mem', head.value, id.value, lo, hi, lo', hi');
    }
  }

  lemma OptionalStringKept(mem: seq<Cell>, mem': seq<Cell>, at: Option<nat>, s: Option<CString>, lo: nat, hi: nat, lo': nat, hi': nat)
    requires OptionalString(mem, at, s, lo, hi) && lo' <= lo && hi <= hi' && Same(mem, mem', lo, hi)
    ensures OptionalString(mem', at, s, lo', hi')
  {
    if s.Some? {
      StringKept(mem, mem', at.value, s.value, lo, hi, lo', hi');
    }
  }

  lemma OptionalMapKept(mem: seq<Cell>, mem': seq<Cell>, head: Option<PairsHead>, pairs: Option<seq<Pair>>, lo: nat, hi: nat, lo': nat, hi': nat)
    requires OptionalMap(mem, head, pairs, lo, hi) && lo' <= lo && hi <= hi' && Same(mem, mem', lo, hi)
    ensures OptionalMap(mem', head, pairs, lo', hi')
  {
    if pairs.Some? {
      MapDenotesKept(mem, mem', head.value.pairs, pairs.value, lo, hi, lo', hi');
    }
  }

  lemma BytesKept(
    mem: seq<Cell>, mem': seq<Cell>, id: Option<IdHead>, parent: Option<IdHead>, name: Option<nat>, f: Fsentry, lo: nat, hi: nat, hi': nat)
    requires BytesDenote(mem, id, parent, name, f, lo, hi) && hi <= hi' && Same(mem, mem', lo, hi)
    ensures BytesDenote(mem', id, parent, name, f, lo, hi')
  {
    hide IdIn, StringIn;
    OptionalIdKept(mem, mem', id, f.id, lo, hi, lo, hi');
    OptionalIdKept(mem, mem', parent, f.parent, lo, hi, lo, hi');
    OptionalStringKept(mem, mem', name, f.name, lo, hi, lo, hi');
    if f.symlink.Some? {
      StringKept(mem, mem', lo, f.symlink.value, lo, hi, lo, hi');
    }
  }

  /** A structure stands for one entry only: every field, present or absent, is read back. */
  lemma EntryDenotesUnique(mem: seq<Cell>, p: nat, f: Fsentry, g: Fsentry, lo: nat, hi: nat)
    requires EntryDenotes(mem, p, f, lo, hi) && EntryDenotes(mem, p, g, lo, hi)
    ensures f == g
  {
    hide IdIn, StringIn, MapDenotes;
    if f.id.Some? {
      IdUnique(mem, mem[p].entryId.value, f.id.value, g.id.value, lo, hi);
    }
    if f.parent.Some? {
      IdUnique(mem, mem[p].parent.value, f.parent.value, g.parent.value, lo, hi);
    }
    if f.name.Some? {
      TextUnique(mem, mem[p].name.value, f.name.value, g.name.value, lo, hi);
    }
    assert f.symlink.Some? <==> SymlinkProperty in mem[p].mask;
    assert g.symlink.Some? <==> SymlinkProperty in mem[p].mask;
    if f.symlink.Some? {
      TextUnique(mem, lo, f.symlink.value, g.symlink.value, lo, hi);
    }
    if f.ns.Some? {
      MapDenotesUnique(mem, mem[p].ns.value.pairs, f.ns.value, g.ns.value, lo, hi);
    }
    if f.inode.Some? {
      MapDenotesUnique(mem, mem[p].inode.value.pairs, f.inode.value, g.inode.value, lo, hi);
    }
  }

  lemma TextUnique(mem: seq<Cell>, q: nat, s: CString, t: CString, lo: nat, hi: nat)
    requires StringIn(mem, q, s, lo, hi) && StringIn(mem, q, t, lo, hi)
    ensures s == t
  {
    StringUnique(mem, q, s, t);
  }

  // ------------------------------------------------------------------ the fill pass

  method OptionalIdCopy(mem: array<Cell>, id: Option<seq<byte>>, data: nat, size: nat, ghost limit: nat)
    returns (head: Option<IdHead>, data': nat, size': nat)
    requires limit <= mem.Length && size == Room(limit, data) && data + IdSize(id) <= limit
    modifies mem
    ensures data' == data + IdSize(id) && size' == Room(limit, data') && OptionalId(mem[..], head, id, data, data')
    ensures OnlyWrote(old(mem[..]), mem[..], data, data')
  {
    head, data', size' := None, data, size;
    if id.Some? {
      var ok, h;
      ok, h, data', size' := IdCopy(mem, id.value, data, size, limit);
      assert ok;
      head := Some(h);
    }
  }

  method OptionalStringCopy(mem: array<Cell>, s: Option<CString>, data: nat, size: nat, ghost limit: nat)
    returns (at: Option<nat>, data': nat, size': nat)
    requires limit <= mem.Length && size == Room(limit, data) && data + TextSize(s) <= limit
    modifies mem
    ensures data' == data + TextSize(s) && size' == Room(limit, data') && OptionalString(mem[..], at, s, data, data')
    ensures at.Some? ==> at.value == data
    ensures OnlyWrote(old(mem[..]), mem[..], data, data')
  {
    at, data', size' := None, data, size;
    if s.Some? {
      assert size >= |s.value| + 1;
      var ok;
      ok, data', size' := PutBytes(mem, Terminated(s.value), data, size, limit);
      at := Some(data);
    }
  }

  /** The link target, the identifiers and the name. */
  method BytesFill(mem: array<Cell>, f: Fsentry, data: nat, size: nat, ghost limit: nat)
    returns (id: Option<IdHead>, parent: Option<IdHead>, name: Option<nat>, data': nat, size': nat)
    requires limit <= mem.Length && size == Room(limit, data) && data + BytesSize(f) <= limit
    modifies mem
    ensures data' == data + BytesSize(f) && size' == Room(limit, data')
    ensures BytesDenote(mem[..], id, parent, name, f, data, data')
    ensures OnlyWrote(old(mem[..]), mem[..], data, data')
  {
    hide IdIn, StringIn;
    var at;
    at, data', size' := OptionalStringCopy(mem, f.symlink, data, size, limit);
    ghost var m0, d0 := mem[..], data';
    id, data', size' := OptionalIdCopy(mem, f.id, data', size', limit);
    ghost var m1, d1 := mem[..], data';
    parent, data', size' := OptionalIdCopy(mem, f.parent, data', size', limit);
    ghost var m2, d2 := mem[..], data';
    name, data', size' := OptionalStringCopy(mem, f.name, data', size', limit);
    OptionalStringKept(m0, mem[..], at, f.symlink, data, d0, data, data');
    OptionalIdKept(m1, mem[..], id, f.id, d0, d1, data, data');
    OptionalIdKept(m2, mem[..], parent, f.parent, d1, d2, data, data');
    OptionalStringKept(mem[..], mem[..], name, f.name, d2, data', data, data');
  }

  method OptionalStatxCopy(mem: array<Cell>, statx: Option<Statx>, data: nat, size: nat, ghost limit: nat)
    returns (at: Option<nat>, data': nat, size': nat)
    requires limit <= mem.Length && size == Room(limit, data) && StatxSize(statx, data) <= limit
    modifies mem
    ensures data' == StatxSize(statx, data) && size' == Room(limit, data') && OptionalStatx(mem[..], at, statx, data, data')
    ensures OnlyWrote(old(mem[..]), mem[..], data, data')
  {
    at, data', size' := None, data, size;
    if statx.Some? {
      var ok, tmp;
      ok, tmp, data', size' := StatxCopy(mem, statx.value, data, size, limit);
      assert ok;
      at := Some(tmp);
    }
  }

  method OptionalMapCopy(mem: array<Cell>, pairs: Option<seq<Pair>>, data: nat, size: nat, ghost limit: nat)
    returns (head: Option<PairsHead>, data': nat, size': nat)
    requires limit <= mem.Length && size == Room(limit, data) && XattrsEnd(pairs, data) <= limit
    modifies mem
    ensures data' == XattrsEnd(pairs, data) && size' == Room(limit, data') && OptionalMap(mem[..], head, pairs, data, data')
    ensures OnlyWrote(old(mem[..]), mem[..], data, data')
  {
    head, data', size' := None, data, size;
    if pairs.Some? {
      var ok;
      ok, data', size' := ValueMapCopy(mem, pairs.value, data, size, limit);
      assert ok;
      head := Some(PairsHead(Align(data), |pairs.value|));
    }
  }

  method FsentryDataSize(f: Fsentry) returns (size: nat)
    ensures size == EntrySize(f)
  {
    size := BytesSize(f);
    if f.statx.Some? {
      size := Align(size) + STATX_SIZE;
    }
    if f.ns.Some? {
      size := Align(size);
      var more := ValueMapDataSize(f.ns.value);
      size := size + more;
    }
    if f.inode.Some? {
      size := Align(size);
      var more := ValueMapDataSize(f.inode.value);
      size := size + more;
    }
  }

  /** Fills a block that is large enough; no assertion fails. */
  method FsentryFill(mem: array<Cell>, f: Fsentry, size: nat)
    requires mem.Length == ENTRY_SIZE + size && EntryEnd(f, ENTRY_SIZE) <= mem.Length
    modifies mem
    ensures EntryDenotes(mem[..], 0, f, ENTRY_SIZE, EntryEnd(f, ENTRY_SIZE))
  {
    hide BytesDenote, OptionalMap, XattrsEnd, BytesSize, Align, Present, MaskTells;
    PresentTells(f);
    var lo := ENTRY_SIZE;
    var id, parent, name, statx, ns, inode, data, left;
    id, parent, name, data, left := BytesFill(mem, f, lo, size, mem.Length);
    ghost var m1, d1 := mem[..], data;
    statx, data, left := OptionalStatxCopy(mem, f.statx, data, left, mem.Length);
    ghost var m2, d2 := mem[..], data;
    ns, data, left := OptionalMapCopy(mem, f.ns, data, left, mem.Length);
    ghost var m3, d3 := mem[..], data;
    inode, data, left := OptionalMapCopy(mem, f.inode, data, left, mem.Length);
    ghost var m4 := mem[..];
    mem[0] := EntryCell(Present(f), id, parent, name, statx, ns, inode);
    BytesKept(m1, mem[..], id, parent, name, f, lo, d1, data);
    OptionalMapKept(m3, mem[..], ns, f.ns, d2, d3, lo, data);
    OptionalMapKept(m4, mem[..], inode, f.inode, d3, data, lo, data);
  }

  /** Fails exactly when a link target contradicts the type of the file; otherwise one block
      holds the entry and all it points at, and stands for the arguments. */
  method FsentryNew(f: Fsentry) returns (block: Option<array<Cell>>)
    ensures block.None? <==> Contradicts(f)
    ensures forall t | KnownType(f.statx, t) :: block.None? <==> f.symlink.Some? && t != SymbolicLink
    ensures block.Some? ==> block.value.Length == ENTRY_SIZE + EntrySize(f)
    ensures block.Some? ==> fresh(block.value) && EntryDenotes(block.value[..], 0, f, ENTRY_SIZE, EntryEnd(f, ENTRY_SIZE))
    ensures EntryEnd(f, ENTRY_SIZE) <= ENTRY_SIZE + EntrySize(f)
  {
    hide EntryDenotes;
    EntryDominates(f, ENTRY_SIZE);
    forall t | KnownType(f.statx, t) ensures Contradicts(f) <==> f.symlink.Some? && t != SymbolicLink {
      ContradictsIff(f, t);
    }
    if Contradicts(f) {
      return None;
    }
    var size := FsentryDataSize(f);
    var mem := new Cell[ENTRY_SIZE + size](_ => Blank);
    FsentryFill(mem, f, size);
    return Some(mem);
  }
}
