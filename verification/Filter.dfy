/** Filters and their two-pass cloning. */
module Filter {
  import opened Wrappers
  import opened Memory
  import opened Value

  datatype Field = Property(property: nat) | Statx(mask: nat) | Xattr(inode: bool, name: Option<CString>)

  /** A valid filter: only the members of logical and array filters may be missing. */
  datatype Filter =
    | Compare(op: nat, field: Field, value: Value)
    | Logical(op: nat, filters: seq<Member>)
    | Array(op: nat, field: Field, filters: seq<Member>, useSubfields: bool)
    | Get(op: nat, field: Field, fsentry: Filter, filter: Filter)

  datatype Member = Absent | Present(filter: Filter)

  const FILTER_SIZE: nat := 48  // sizeof(struct rbh_filter)
  const POINTER_SIZE: nat := 8
  const VALUE_OFFSET: nat := 24 // offsetof(struct rbh_filter, compare.value)

  // ------------------------------------------------------------------ the size pass

  function FieldSize(field: Field): nat {
    if field.Xattr? && field.name.Some? then |field.name.value| + 1 else 0
  }

  function FilterSize(f: Filter): nat
    decreases f
  {
    match f
    case Compare(_, field, value) => FieldSize(field) + DataSize(value, FieldSize(field))
    case Logical(_, filters) => MembersSize(filters, |filters| * POINTER_SIZE, |filters|)
    case Array(_, field, filters, _) => MembersSize(filters, FieldSize(field) + |filters| * POINTER_SIZE, |filters|)
    case Get(_, field, fsentry, filter) =>
      var size := Align(FieldSize(field) + 2 * POINTER_SIZE) + FILTER_SIZE + FilterSize(filter);
      Align(size) + FILTER_SIZE + FilterSize(fsentry)
  }

  /** From `size` on, the first `k` members with what they point at. */
  function MembersSize(filters: seq<Member>, size: nat, k: nat): nat
    requires k <= |filters|
    decreases filters, k
  {
    if k == 0 then size else MemberSize(filters[k - 1], MembersSize(filters, size, k - 1))
  }

  function MemberSize(m: Member, size: nat): nat
    decreases m
  {
    if m.Absent? then size else Align(size) + FILTER_SIZE + FilterSize(m.filter)
  }

  method FilterDataSize(f: Filter) returns (size: nat)
    ensures size == FilterSize(f)
    decreases f
  {
    match f
    case Compare(_, field, value) =>
      size := FieldSize(field);
      var more := ValueDataSize(value, size);
      size := size + more;
    case Logical(_, filters) =>
      size := MembersDataSize(filters, POINTER_SIZE * |filters|);
    case Array(_, field, filters, _) =>
      size := FieldSize(field);
      size := MembersDataSize(filters, size + POINTER_SIZE * |filters|);
    case Get(_, field, fsentry, filter) =>
      size := FieldSize(field);
      size := Align(size + 2 * POINTER_SIZE) + FILTER_SIZE;
      var more := FilterDataSize(filter);
      size := Align(size + more) + FILTER_SIZE;
      more := FilterDataSize(fsentry);
      size := size + more;
  }

  method MembersDataSize(filters: seq<Member>, start: nat) returns (size: nat)
    ensures size == MembersSize(filters, start, |filters|)
    decreases filters
  {
    size := start;
    for i := 0 to |filters|
      invariant size == MembersSize(filters, start, i)
    {
      size := MemberDataSize(filters[i], size);
    }
  }

  method MemberDataSize(m: Member, start: nat) returns (size: nat)
    ensures size == MemberSize(m, start)
    decreases m
  {
    size := start;
    if m.Present? {
      size := Align(size);
      size := size + FILTER_SIZE;
      var more := FilterDataSize(m.filter);
      size := size + more;
    }
  }

  // ------------------------------------------------------------------ where the copy pass ends

  function FilterEnd(f: Filter, at: nat): (end: nat)
    ensures at <= end
    decreases f
  {
    match f
    case Compare(_, field, value) => End(value, at + FieldSize(field))
    case Logical(_, filters) => MembersEnd(filters, Align(at) + |filters| * POINTER_SIZE, |filters|)
    case Array(_, field, filters, _) =>
      MembersEnd(filters, Align(at) + |filters| * POINTER_SIZE + FieldSize(field), |filters|)
    case Get(_, field, fsentry, filter) =>
      var end := FilterEnd(fsentry, Align(at + FieldSize(field)) + FILTER_SIZE);
      FilterEnd(filter, Align(end) + FILTER_SIZE)
  }

  function MembersEnd(filters: seq<Member>, at: nat, k: nat): (end: nat)
    requires k <= |filters|
    ensures at <= end
    decreases filters, k
  {
    if k == 0 then at else MemberEnd(filters[k - 1], MembersEnd(filters, at, k - 1))
  }

  function MemberEnd(m: Member, at: nat): (end: nat)
    ensures at <= end
    decreases m
  {
    if m.Absent? then at else FilterEnd(m.filter, Align(at) + FILTER_SIZE)
  }

  lemma {:induction false} MembersEndMonotone(filters: seq<Member>, at: nat, i: nat, j: nat)
    requires i <= j <= |filters|
    ensures MembersEnd(filters, at, i) <= MembersEnd(filters, at, j)
    decreases j
  {
    if i < j {
      MembersEndMonotone(filters, at, i, j - 1);
    }
  }

  // ------------------------------------------------------------------ the first pass dominates

  /** The size pass covers the copy pass, also for GET filters, whose two members are sized in
      one order and copied in the other. */
  lemma {:induction false} FilterDominates(f: Filter, base: nat, at: nat)
    requires base % ALIGNMENT == 0 && at <= base
    ensures FilterEnd(f, at) <= base + FilterSize(f)
    decreases f, 1
  {
    hide Align;
    AlignMonotone(at, base);
    match f
    case Compare(_, field, value) => SizeDominates(value, base, FieldSize(field), at + FieldSize(field));
    case Logical(_, filters) =>
      MembersDominate(filters, base, |filters| * POINTER_SIZE, Align(at) + |filters| * POINTER_SIZE, |filters|);
    case Array(_, field, filters, _) =>
      var size := FieldSize(field) + |filters| * POINTER_SIZE;
      MembersDominate(filters, base, size, Align(at) + size, |filters|);
    case Get(_, field, fsentry, filter) =>
      GetDominates(f, base, at);
  }

  /** Swapping the members costs at most the padding of one, and the size pass has counted two
      pointers that the copy does not store. */
  lemma GetOrders(field: nat, fsentry: nat, filter: nat)
    ensures Align(Align(field) + FILTER_SIZE + fsentry) + FILTER_SIZE + filter
            <= Align(Align(field + 2 * POINTER_SIZE) + FILTER_SIZE + filter) + FILTER_SIZE + fsentry
  {
    AlignShift(2 * POINTER_SIZE, field);
    AlignShift(Align(field) + FILTER_SIZE, fsentry);
    AlignShift(Align(field) + 2 * POINTER_SIZE + FILTER_SIZE, filter);
  }

  lemma GetUnfolds(f: Filter, at: nat)
    requires f.Get?
    ensures var end := FilterEnd(f.fsentry, Align(at + FieldSize(f.field)) + FILTER_SIZE);
            FilterEnd(f, at) == FilterEnd(f.filter, Align(end) + FILTER_SIZE)
    ensures var size := Align(FieldSize(f.field) + 2 * POINTER_SIZE) + FILTER_SIZE + FilterSize(f.filter);
            FilterSize(f) == Align(size) + FILTER_SIZE + FilterSize(f.fsentry)
  {
    hide Align;
  }

  lemma {:induction false} GetDominates(f: Filter, base: nat, at: nat)
    requires f.Get? && base % ALIGNMENT == 0 && at <= base
    ensures FilterEnd(f, at) <= base + FilterSize(f)
    decreases f, 0
  {
    hide Align, FilterEnd, FilterSize;
    var field, a := FieldSize(f.field), FilterSize(f.fsentry);
    StructDominates(f.fsentry, base, field, at + field);
    StructDominates(f.filter, base, Align(field) + FILTER_SIZE + a,
                    FilterEnd(f.fsentry, Align(at + field) + FILTER_SIZE));
    GetOrders(field, a, FilterSize(f.filter));
    GetUnfolds(f, at);
  }

  lemma NextAligned(base: nat, size: nat, at: nat)
    requires base % ALIGNMENT == 0 && at <= base + size
    ensures Align(at) <= base + Align(size) && (base + Align(size) + FILTER_SIZE) % ALIGNMENT == 0
  {
    AlignMonotone(at, base + size);
    AlignShift(base, size);
  }

  /** A filter with its structure, after alignment. */
  lemma {:induction false} StructDominates(f: Filter, base: nat, size: nat, at: nat)
    requires base % ALIGNMENT == 0 && at <= base + size
    ensures FilterEnd(f, Align(at) + FILTER_SIZE) <= base + Align(size) + FILTER_SIZE + FilterSize(f)
    decreases f, 2
  {
    hide Align, FilterEnd, FilterSize;
    NextAligned(base, size, at);
    FilterDominates(f, base + Align(size) + FILTER_SIZE, Align(at) + FILTER_SIZE);
  }

  lemma {:induction false} MembersDominate(filters: seq<Member>, base: nat, size: nat, at: nat, k: nat)
    requires base % ALIGNMENT == 0 && k <= |filters| && at <= base + size
    ensures MembersEnd(filters, at, k) <= base + MembersSize(filters, size, k)
    decreases filters, k
  {
    if k > 0 {
      MembersDominate(filters, base, size, at, k - 1);
      MemberDominates(filters[k - 1], base, MembersSize(filters, size, k - 1), MembersEnd(filters, at, k - 1));
    }
  }

  lemma {:induction false} MemberDominates(m: Member, base: nat, size: nat, at: nat)
    requires base % ALIGNMENT == 0 && at <= base + size
    ensures MemberEnd(m, at) <= base + MemberSize(m, size)
    decreases m
  {
    if m.Present? {
      StructDominates(m.filter, base, size, at);
    }
  }

  // ------------------------------------------------------------------ what a block denotes

  ghost predicate FieldDenotes(mem: seq<Cell>, head: FieldHead, field: Field, lo: nat, hi: nat) {
    match field
    case Property(p) => head == PropertyHead(p)
    case Statx(mask) => head == StatxHead(mask)
    case Xattr(inode, name) =>
      && head.XattrHead? && head.inode == inode && (head.name.None? <==> name.None?)
      && (name.Some? ==> StringIn(mem, head.name.value, name.value, lo, hi))
  }

  /** The structure at `p` stands for `f`; all it points at lies in `lo..hi`. */
  ghost predicate FilterDenotes(mem: seq<Cell>, p: nat, f: Filter, lo: nat, hi: nat)
    decreases f
  {
    && p < |mem| && mem[p].FilterCell?
    && var head := mem[p].filter;
       match f
       case Compare(op, field, value) =>
         && head.CompareHead? && head.op == op && FieldDenotes(mem, head.field, field, lo, hi)
         && Denotes(mem, p + VALUE_OFFSET, value, lo, hi)
       case Logical(op, filters) =>
         && head.LogicalHead? && head.op == op && head.count == |filters|
         && MembersDenote(mem, head.filters, filters, lo, hi)
       case Array(op, field, filters, use) =>
         && head.ArrayHead? && head.op == op && head.count == |filters| && head.useSubfields == use
         && FieldDenotes(mem, head.field, field, lo, hi) && MembersDenote(mem, head.filters, filters, lo, hi)
       case Get(op, field, fsentry, filter) =>
         && head.GetHead? && head.op == op && FieldDenotes(mem, head.field, field, lo, hi)
         && StructIn(head.fsentry, lo, hi) && FilterDenotes(mem, head.fsentry, fsentry, lo, hi)
         && StructIn(head.filter, lo, hi) && FilterDenotes(mem, head.filter, filter, lo, hi)
  }

  predicate StructIn(p: nat, lo: nat, hi: nat) {
    lo <= p && p + FILTER_SIZE <= hi
  }

  ghost predicate MemberDenotes(mem: seq<Cell>, p: nat, m: Member, lo: nat, hi: nat)
    decreases m
  {
    && p < |mem| && mem[p].PointerCell? && (m.Absent? <==> mem[p].target.None?)
    && (m.Present? ==> StructIn(mem[p].target.value, lo, hi) && FilterDenotes(mem, mem[p].target.value, m.filter, lo, hi))
  }

  ghost predicate MembersDenote(mem: seq<Cell>, q: nat, filters: seq<Member>, lo: nat, hi: nat)
    decreases filters
  {
    && lo <= q && q + |filters| * POINTER_SIZE <= hi
    && forall i :: 0 <= i < |filters| ==> MemberDenotes(mem, q + i * POINTER_SIZE, filters[i], lo, hi)
  }

  ghost predicate FirstMembersDenote(mem: seq<Cell>, q: nat, filters: seq<Member>, k: nat, lo: nat, hi: nat)
    requires k <= |filters|
  {
    forall i :: 0 <= i < k ==> MemberDenotes(mem, q + i * POINTER_SIZE, filters[i], lo, hi)
  }

  /** The same structure of a filter, with the value inside it. */
  ghost predicate SameStruct(mem: seq<Cell>, mem': seq<Cell>, p: nat) {
    |mem'| == |mem| && (p < |mem| ==> mem'[p] == mem[p]) && (p + VALUE_OFFSET < |mem| ==> mem'[p + VALUE_OFFSET] == mem[p + VALUE_OFFSET])
  }

  lemma {:induction false} FilterDenotesKept(mem: seq<Cell>, mem': seq<Cell>, p: nat, f: Filter, lo: nat, hi: nat, lo': nat, hi': nat)
    requires FilterDenotes(mem, p, f, lo, hi) && lo' <= lo && hi <= hi' && Same(mem, mem', lo, hi) && SameStruct(mem, mem', p)
    ensures FilterDenotes(mem', p, f, lo', hi')
    decreases f
  {
    match f
    case Compare(_, field, value) => DenotesKept(mem, mem', p + VALUE_OFFSET, value, lo, hi, lo', hi');
    case Logical(_, filters) => MembersDenoteKept(mem, mem', mem[p].filter.filters, filters, lo, hi, lo', hi');
    case Array(_, field, filters, _) => MembersDenoteKept(mem, mem', mem[p].filter.filters, filters, lo, hi, lo', hi');
    case Get(_, field, fsentry, filter) =>
      FilterDenotesKept(mem, mem', mem[p].filter.fsentry, fsentry, lo, hi, lo', hi');
      FilterDenotesKept(mem, mem', mem[p].filter.filter, filter, lo, hi, lo', hi');
  }

  lemma {:induction false} MemberDenotesKept(mem: seq<Cell>, mem': seq<Cell>, p: nat, m: Member, lo: nat, hi: nat, lo': nat, hi': nat)
    requires MemberDenotes(mem, p, m, lo, hi) && lo' <= lo && hi <= hi' && Same(mem, mem', lo, hi) && mem'[p] == mem[p]
    ensures MemberDenotes(mem', p, m, lo', hi')
    decreases m
  {
    if m.Present? {
      FilterDenotesKept(mem, mem', mem[p].target.value, m.filter, lo, hi, lo', hi');
    }
  }

  lemma {:induction false} MembersDenoteKept(mem: seq<Cell>, mem': seq<Cell>, q: nat, filters: seq<Member>, lo: nat, hi: nat, lo': nat, hi': nat)
    requires MembersDenote(mem, q, filters, lo, hi) && lo' <= lo && hi <= hi' && Same(mem, mem', lo, hi)
    ensures MembersDenote(mem', q, filters, lo', hi')
    decreases filters
  {
    forall i | 0 <= i < |filters| ensures MemberDenotes(mem', q + i * POINTER_SIZE, filters[i], lo', hi') {
      MemberDenotesKept(mem, mem', q + i * POINTER_SIZE, filters[i], lo, hi, lo', hi');
    }
  }

  lemma FieldUnique(mem: seq<Cell>, head: FieldHead, a: Field, b: Field, lo: nat, hi: nat)
    requires FieldDenotes(mem, head, a, lo, hi) && FieldDenotes(mem, head, b, lo, hi)
    ensures a == b
  {
    if a.Xattr? && a.name.Some? {
      StringUnique(mem, head.name.value, a.name.value, b.name.value);
    }
  }

  /** A structure stands for one filter only. */
  lemma {:induction false} FilterDenotesUnique(mem: seq<Cell>, p: nat, f: Filter, g: Filter, lo: nat, hi: nat)
    requires FilterDenotes(mem, p, f, lo, hi) && FilterDenotes(mem, p, g, lo, hi)
    ensures f == g
    decreases f
  {
    var head := mem[p].filter;
    if !f.Logical? {
      FieldUnique(mem, head.field, f.field, g.field, lo, hi);
    }
    match f
    case Compare(_, _, value) => DenotesUnique(mem, p + VALUE_OFFSET, value, g.value, lo, hi);
    case Logical(_, filters) => MembersUnique(mem, head.filters, filters, g.filters, lo, hi);
    case Array(_, _, filters, _) => MembersUnique(mem, head.filters, filters, g.filters, lo, hi);
    case Get(_, _, fsentry, filter) =>
      FilterDenotesUnique(mem, head.fsentry, fsentry, g.fsentry, lo, hi);
      FilterDenotesUnique(mem, head.filter, filter, g.filter, lo, hi);
  }

  lemma {:induction false} MembersUnique(mem: seq<Cell>, q: nat, a: seq<Member>, b: seq<Member>, lo: nat, hi: nat)
    requires MembersDenote(mem, q, a, lo, hi) && MembersDenote(mem, q, b, lo, hi) && |a| == |b|
    ensures a == b
    decreases a
  {
    forall i | 0 <= i < |a| ensures a[i] == b[i] {
      assert MemberDenotes(mem, q + i * POINTER_SIZE, a[i], lo, hi) && MemberDenotes(mem, q + i * POINTER_SIZE, b[i], lo, hi);
      MemberUnique(mem, q + i * POINTER_SIZE, a[i], b[i], lo, hi);
    }
  }

  lemma {:induction false} MemberUnique(mem: seq<Cell>, p: nat, a: Member, b: Member, lo: nat, hi: nat)
    requires MemberDenotes(mem, p, a, lo, hi) && MemberDenotes(mem, p, b, lo, hi)
    ensures a == b
    decreases a
  {
    if a.Present? {
      FilterDenotesUnique(mem, mem[p].target.value, a.filter, b.filter, lo, hi);
    }
  }

  // ------------------------------------------------------------------ the copy pass

  /** Apart from the structure at `dest` and from `data` on up to `hi`, nothing changed. */
  ghost predicate FilterCopied(before: seq<Cell>, after: seq<Cell>, dest: nat, data: nat, hi: nat) {
    && |before| == |after|
    && forall i :: 0 <= i < |before| && i != dest && i != dest + VALUE_OFFSET && !(data <= i < hi) ==> after[i] == before[i]
  }

  method FilterFieldCopy(mem: array<Cell>, field: Field, data: nat, size: nat, ghost limit: nat)
    returns (ok: bool, head: FieldHead, data': nat, size': nat)
    requires limit <= mem.Length && size == Room(limit, data)
    modifies mem
    ensures data + FieldSize(field) <= limit ==> ok
    ensures ok ==> data' == data + FieldSize(field) && size' == Room(limit, data') && FieldDenotes(mem[..], head, field, data, data')
    ensures OnlyWrote(old(mem[..]), mem[..], data, if ok then data' else mem.Length)
  {
    match field
    case Property(p) => return true, PropertyHead(p), data, size;
    case Statx(mask) => return true, StatxHead(mask), data, size;
    case Xattr(inode, name) =>
      if name.None? {
        return true, XattrHead(inode, None), data, size;
      }
      ok, data', size' := PutBytes(mem, Terminated(name.value), data, size, limit);
      head := XattrHead(inode, Some(data));
  }

  /** Copies `f` to the structure at `dest`, what it points at from `data` on. */
  method FilterCopy(mem: array<Cell>, dest: nat, f: Filter, data: nat, size: nat, ghost limit: nat)
    returns (ok: bool, data': nat, size': nat)
    requires limit <= mem.Length && dest + FILTER_SIZE <= data && dest + FILTER_SIZE <= mem.Length && size == Room(limit, data)
    modifies mem
    ensures FilterEnd(f, data) <= limit ==> ok
    ensures ok ==> data' == FilterEnd(f, data) && size' == Room(limit, data') && FilterDenotes(mem[..], dest, f, data, data')
    ensures FilterCopied(old(mem[..]), mem[..], dest, data, if ok then data' else mem.Length)
    decreases f, 1
  {
    match f
    case Compare(_, _, _) => ok, data', size' := ComparisonFilterCopy(mem, dest, f, data, size, limit);
    case Logical(_, _) => ok, data', size' := LogicalFilterCopy(mem, dest, f, data, size, limit);
    case Array(_, _, _, _) => ok, data', size' := ArrayFilterCopy(mem, dest, f, data, size, limit);
    case Get(_, _, _, _) => ok, data', size' := GetFilterCopy(mem, dest, f, data, size, limit);
  }

  lemma FieldDenotesKept(mem: seq<Cell>, mem': seq<Cell>, head: FieldHead, field: Field, lo: nat, hi: nat, lo': nat, hi': nat)
    requires FieldDenotes(mem, head, field, lo, hi) && lo' <= lo && hi <= hi' && Same(mem, mem', lo, hi)
    ensures FieldDenotes(mem', head, field, lo', hi')
  {
  }

  method ComparisonFilterCopy(mem: array<Cell>, dest: nat, f: Filter, data: nat, size: nat, ghost limit: nat)
    returns (ok: bool, data': nat, size': nat)
    requires f.Compare?
    requires limit <= mem.Length && dest + FILTER_SIZE <= data && dest + FILTER_SIZE <= mem.Length && size == Room(limit, data)
    modifies mem
    ensures FilterEnd(f, data) <= limit ==> ok
    ensures ok ==> data' == FilterEnd(f, data) && size' == Room(limit, data') && FilterDenotes(mem[..], dest, f, data, data')
    ensures FilterCopied(old(mem[..]), mem[..], dest, data, if ok then data' else mem.Length)
    decreases f, 0
  {
    hide Denotes, End, FieldDenotes;
    var head;
    ok, head, data', size' := FilterFieldCopy(mem, f.field, data, size, limit);
    if !ok {
      return;
    }
    ghost var m, mid := mem[..], data';
    ok, data', size' := ValueCopy(mem, dest + VALUE_OFFSET, f.value, data', size', limit);
    if !ok {
      return;
    }
    ghost var n := mem[..];
    mem[dest] := FilterCell(CompareHead(f.op, head));
    FieldDenotesKept(m, mem[..], head, f.field, data, mid, data, data');
    DenotesKept(n, mem[..], dest + VALUE_OFFSET, f.value, mid, data', data, data');
  }

  /** The structure of a filter, aligned, and what it points at. */
  method StructCopy(mem: array<Cell>, f: Filter, data: nat, size: nat, ghost limit: nat)
    returns (ok: bool, at: nat, data': nat, size': nat)
    requires limit <= mem.Length && size == Room(limit, data)
    modifies mem
    ensures FilterEnd(f, Align(data) + FILTER_SIZE) <= limit ==> ok
    ensures ok ==> data' == FilterEnd(f, Align(data) + FILTER_SIZE) && size' == Room(limit, data')
    ensures ok ==> StructIn(at, data, data') && FilterDenotes(mem[..], at, f, data, data')
    ensures OnlyWrote(old(mem[..]), mem[..], data, if ok then data' else mem.Length)
    decreases f, 2
  {
    hide FilterDenotes, FilterEnd;
    var p;
    p, data', size' := AlignedAlloc(FILTER_SIZE, data, size, limit);
    if p.None? {
      return false, 0, data, size;
    }
    at := p.value;
    ghost var lo := data';
    ok, data', size' := FilterCopy(mem, at, f, data', size', limit);
    if ok {
      FilterDenotesKept(mem[..], mem[..], at, f, lo, data', data, data');
    }
  }

  /** A member: its structure and what it points at, then the pointer to it. */
  method MemberCopy(mem: array<Cell>, dest: nat, m: Member, data: nat, size: nat, ghost limit: nat)
    returns (ok: bool, data': nat, size': nat)
    requires limit <= mem.Length && dest + POINTER_SIZE <= data && dest + POINTER_SIZE <= mem.Length && size == Room(limit, data)
    modifies mem
    ensures MemberEnd(m, data) <= limit ==> ok
    ensures ok ==> data' == MemberEnd(m, data) && size' == Room(limit, data') && MemberDenotes(mem[..], dest, m, data, data')
    ensures Copied(old(mem[..]), mem[..], dest, data, if ok then data' else mem.Length)
    decreases m
  {
    hide FilterDenotes, FilterEnd;
    if m.Absent? {
      mem[dest] := PointerCell(None);
      return true, data, size;
    }
    var at;
    ok, at, data', size' := StructCopy(mem, m.filter, data, size, limit);
    if !ok {
      return;
    }
    ghost var n := mem[..];
    mem[dest] := PointerCell(Some(at));
    FilterDenotesKept(n, mem[..], at, m.filter, data, data', data, data');
  }

  lemma MemberCopied(m: seq<Cell>, m': seq<Cell>, q: nat, filters: seq<Member>, k: nat, lo: nat, cur: nat, end: nat)
    requires k < |filters| && q + |filters| * POINTER_SIZE <= lo <= cur <= end
    requires FirstMembersDenote(m, q, filters, k, lo, cur) && Copied(m, m', q + k * POINTER_SIZE, cur, end)
    requires MemberDenotes(m', q + k * POINTER_SIZE, filters[k], cur, end)
    ensures FirstMembersDenote(m', q, filters, k + 1, lo, end)
  {
    hide MemberDenotes;
    forall j | 0 <= j < k + 1 ensures MemberDenotes(m', q + j * POINTER_SIZE, filters[j], lo, end) {
      if j < k {
        MemberInside(m, q + j * POINTER_SIZE, filters[j], lo, cur);
        MemberDenotesKept(m, m', q + j * POINTER_SIZE, filters[j], lo, cur, lo, end);
      } else {
        MemberDenotesKept(m', m', q + j * POINTER_SIZE, filters[j], cur, end, lo, end);
      }
    }
  }

  /** The members whose pointers sit at `q`. */
  method MembersCopy(mem: array<Cell>, q: nat, filters: seq<Member>, data: nat, size: nat, ghost limit: nat)
    returns (ok: bool, data': nat, size': nat)
    requires limit <= mem.Length && size == Room(limit, data) && q + |filters| * POINTER_SIZE <= data
    requires filters != [] ==> q + |filters| * POINTER_SIZE <= mem.Length
    modifies mem
    ensures MembersEnd(filters, data, |filters|) <= limit ==> ok
    ensures ok ==> data' == MembersEnd(filters, data, |filters|) && size' == Room(limit, data')
    ensures ok ==> FirstMembersDenote(mem[..], q, filters, |filters|, data, data')
    ensures |mem[..]| == |old(mem[..])|
    ensures forall i | 0 <= i < mem.Length && !(q <= i < q + |filters| * POINTER_SIZE)
              :: !(data <= i < if ok then data' else mem.Length) ==> mem[i] == old(mem[i])
    decreases filters
  {
    hide MemberDenotes, MemberEnd;
    data', size' := data, size;
    for i := 0 to |filters|
      invariant data' == MembersEnd(filters, data, i) && size' == Room(limit, data')
      invariant FirstMembersDenote(mem[..], q, filters, i, data, data')
      invariant forall k | 0 <= k < mem.Length && !(q <= k < q + |filters| * POINTER_SIZE)
                  :: !(data <= k < data') ==> mem[k] == old(mem[k])
    {
      ghost var m, cur := mem[..], data';
      ok, data', size' := MemberCopy(mem, q + i * POINTER_SIZE, filters[i], data', size', limit);
      if !ok {
        MembersEndMonotone(filters, data, i + 1, |filters|);
        return;
      }
      MemberCopied(m, mem[..], q, filters, i, data, cur, data');
    }
    ok := true;
  }

  lemma MembersAreArray(m: seq<Cell>, m': seq<Cell>, q: nat, filters: seq<Member>, lo: nat, hi: nat, lo': nat)
    requires FirstMembersDenote(m, q, filters, |filters|, lo, hi) && lo' <= lo && lo' <= q && q + |filters| * POINTER_SIZE <= lo <= hi
    requires Same(m, m', lo', hi)
    ensures MembersDenote(m', q, filters, lo', hi)
  {
    hide MemberDenotes;
    forall j | 0 <= j < |filters| ensures MemberDenotes(m', q + j * POINTER_SIZE, filters[j], lo', hi) {
      assert MemberDenotes(m, q + j * POINTER_SIZE, filters[j], lo, hi);
      MemberInside(m, q + j * POINTER_SIZE, filters[j], lo, hi);
      MemberDenotesKept(m, m', q + j * POINTER_SIZE, filters[j], lo, hi, lo', hi);
    }
  }

  lemma MemberInside(m: seq<Cell>, p: nat, member: Member, lo: nat, hi: nat)
    requires MemberDenotes(m, p, member, lo, hi)
    ensures p < |m|
  {
  }

  method LogicalFilterCopy(mem: array<Cell>, dest: nat, f: Filter, data: nat, size: nat, ghost limit: nat)
    returns (ok: bool, data': nat, size': nat)
    requires f.Logical?
    requires limit <= mem.Length && dest + FILTER_SIZE <= data && dest + FILTER_SIZE <= mem.Length && size == Room(limit, data)
    modifies mem
    ensures FilterEnd(f, data) <= limit ==> ok
    ensures ok ==> data' == FilterEnd(f, data) && size' == Room(limit, data') && FilterDenotes(mem[..], dest, f, data, data')
    ensures FilterCopied(old(mem[..]), mem[..], dest, data, if ok then data' else mem.Length)
    decreases f, 0
  {
    hide MembersDenote, FirstMembersDenote, MembersEnd;
    var at;
    at, data', size' := AlignedAlloc(|f.filters| * POINTER_SIZE, data, size, limit);
    if at.None? {
      return false, data, size;
    }
    ghost var lo := data';
    ok, data', size' := MembersCopy(mem, at.value, f.filters, data', size', limit);
    if !ok {
      return;
    }
    ghost var n := mem[..];
    mem[dest] := FilterCell(LogicalHead(f.op, at.value, |f.filters|));
    MembersAreArray(n, mem[..], at.value, f.filters, lo, data', data);
  }

  method ArrayFilterCopy(mem: array<Cell>, dest: nat, f: Filter, data: nat, size: nat, ghost limit: nat)
    returns (ok: bool, data': nat, size': nat)
    requires f.Array?
    requires limit <= mem.Length && dest + FILTER_SIZE <= data && dest + FILTER_SIZE <= mem.Length && size == Room(limit, data)
    modifies mem
    ensures FilterEnd(f, data) <= limit ==> ok
    ensures ok ==> data' == FilterEnd(f, data) && size' == Room(limit, data') && FilterDenotes(mem[..], dest, f, data, data')
    ensures FilterCopied(old(mem[..]), mem[..], dest, data, if ok then data' else mem.Length)
    decreases f, 0
  {
    hide MembersDenote, FirstMembersDenote, MembersEnd, FieldDenotes;
    var at, head;
    at, data', size' := AlignedAlloc(|f.filters| * POINTER_SIZE, data, size, limit);
    if at.None? {
      return false, data, size;
    }
    ghost var start := data';
    ok, head, data', size' := FilterFieldCopy(mem, f.field, data', size', limit);
    if !ok {
      return;
    }
    ghost var m, lo := mem[..], data';
    ok, data', size' := MembersCopy(mem, at.value, f.filters, data', size', limit);
    if !ok {
      return;
    }
    ghost var n := mem[..];
    mem[dest] := FilterCell(ArrayHead(f.op, head, at.value, |f.filters|, f.useSubfields));
    FieldDenotesKept(m, mem[..], head, f.field, start, lo, data, data');
    MembersAreArray(n, mem[..], at.value, f.filters, lo, data', data);
  }

  /** The two members of a GET filter. */
  method TwoStructsCopy(mem: array<Cell>, f: Filter, data: nat, size: nat, ghost limit: nat)
    returns (ok: bool, fsentry: nat, filter: nat, data': nat, size': nat)
    requires f.Get? && limit <= mem.Length && size == Room(limit, data)
    modifies mem
    ensures var end := FilterEnd(f.filter, Align(FilterEnd(f.fsentry, Align(data) + FILTER_SIZE)) + FILTER_SIZE);
            (end <= limit ==> ok) && (ok ==> data' == end && data <= end)
    ensures ok ==> size' == Room(limit, data')
    ensures ok ==> StructIn(fsentry, data, data') && FilterDenotes(mem[..], fsentry, f.fsentry, data, data')
    ensures ok ==> StructIn(filter, data, data') && FilterDenotes(mem[..], filter, f.filter, data, data')
    ensures OnlyWrote(old(mem[..]), mem[..], data, if ok then data' else mem.Length)
    decreases f, 0, 0
  {
    hide FilterEnd, FilterDenotes, Align;
    filter := 0;
    ok, fsentry, data', size' := StructCopy(mem, f.fsentry, data, size, limit);
    if !ok {
      return;
    }
    ghost var m, mid := mem[..], data';
    ok, filter, data', size' := StructCopy(mem, f.filter, data', size', limit);
    if !ok {
      return;
    }
    FilterDenotesKept(m, mem[..], fsentry, f.fsentry, data, mid, data, data');
    FilterDenotesKept(mem[..], mem[..], filter, f.filter, mid, data', data, data');
  }

  /** The parts of a GET filter, the later ones copied after the first. */
  lemma GetPartsKept(
    f: Filter, m: seq<Cell>, m': seq<Cell>, head: FieldHead, fsentry: nat, filter: nat, lo: nat, mid: nat, hi: nat)
    requires f.Get? && lo <= mid <= hi && OnlyWrote(m, m', mid, hi) && FieldDenotes(m, head, f.field, lo, mid)
    requires StructIn(fsentry, mid, hi) && FilterDenotes(m', fsentry, f.fsentry, mid, hi)
    requires StructIn(filter, mid, hi) && FilterDenotes(m', filter, f.filter, mid, hi)
    ensures FieldDenotes(m', head, f.field, lo, hi)
    ensures StructIn(fsentry, lo, hi) && FilterDenotes(m', fsentry, f.fsentry, lo, hi)
    ensures StructIn(filter, lo, hi) && FilterDenotes(m', filter, f.filter, lo, hi)
  {
    hide FieldDenotes, FilterDenotes;
    FieldDenotesKept(m, m', head, f.field, lo, mid, lo, hi);
    FilterDenotesKept(m', m', fsentry, f.fsentry, mid, hi, lo, hi);
    FilterDenotesKept(m', m', filter, f.filter, mid, hi, lo, hi);
  }

  /** All a GET filter points at: the name of its field, then its members. */
  method GetPartsCopy(mem: array<Cell>, f: Filter, data: nat, size: nat, ghost limit: nat)
    returns (ok: bool, head: FieldHead, fsentry: nat, filter: nat, data': nat, size': nat)
    requires f.Get? && limit <= mem.Length && size == Room(limit, data)
    modifies mem
    ensures FilterEnd(f, data) <= limit ==> ok
    ensures ok ==> data' == FilterEnd(f, data) && size' == Room(limit, data') && FieldDenotes(mem[..], head, f.field, data, data')
    ensures ok ==> StructIn(fsentry, data, data') && FilterDenotes(mem[..], fsentry, f.fsentry, data, data')
    ensures ok ==> StructIn(filter, data, data') && FilterDenotes(mem[..], filter, f.filter, data, data')
    ensures OnlyWrote(old(mem[..]), mem[..], data, if ok then data' else mem.Length)
    decreases f, 0, 1
  {
    hide FieldDenotes, FilterEnd, FilterDenotes, Align, FieldSize, StructIn;
    GetUnfolds(f, data);
    fsentry, filter := 0, 0;
    ok, head, data', size' := FilterFieldCopy(mem, f.field, data, size, limit);
    if !ok {
      return;
    }
    ghost var m, mid := mem[..], data';
    ok, fsentry, filter, data', size' := TwoStructsCopy(mem, f, data', size', limit);
    if !ok {
      return;
    }
    GetPartsKept(f, m, mem[..], head, fsentry, filter, data, mid, data');
  }

  lemma GetDenotes(mem: seq<Cell>, p: nat, f: Filter, lo: nat, hi: nat)
    requires f.Get? && p < |mem| && mem[p].FilterCell? && mem[p].filter.GetHead? && mem[p].filter.op == f.op
    requires var head := mem[p].filter;
             && FieldDenotes(mem, head.field, f.field, lo, hi)
             && StructIn(head.fsentry, lo, hi) && FilterDenotes(mem, head.fsentry, f.fsentry, lo, hi)
             && StructIn(head.filter, lo, hi) && FilterDenotes(mem, head.filter, f.filter, lo, hi)
    ensures FilterDenotes(mem, p, f, lo, hi)
  {
  }

  method GetFilterCopy(mem: array<Cell>, dest: nat, f: Filter, data: nat, size: nat, ghost limit: nat)
    returns (ok: bool, data': nat, size': nat)
    requires f.Get?
    requires limit <= mem.Length && dest + FILTER_SIZE <= data && dest + FILTER_SIZE <= mem.Length && size == Room(limit, data)
    modifies mem
    ensures FilterEnd(f, data) <= limit ==> ok
    ensures ok ==> data' == FilterEnd(f, data) && size' == Room(limit, data') && FilterDenotes(mem[..], dest, f, data, data')
    ensures FilterCopied(old(mem[..]), mem[..], dest, data, if ok then data' else mem.Length)
    decreases f, 0
  {
    hide FieldDenotes, FilterEnd, FilterDenotes, Align, FieldSize;
    var head, fsentry, filter;
    ok, head, fsentry, filter, data', size' := GetPartsCopy(mem, f, data, size, limit);
    if !ok {
      return;
    }
    ghost var n := mem[..];
    mem[dest] := FilterCell(GetHead(f.op, head, fsentry, filter));
    FieldDenotesKept(n, mem[..], head, f.field, data, data', data, data');
    FilterDenotesKept(n, mem[..], fsentry, f.fsentry, data, data', data, data');
    FilterDenotesKept(n, mem[..], filter, f.filter, data, data', data, data');
    GetDenotes(mem[..], dest, f, data, data');
  }

  /** One block holds a filter and all it points at: no assertion of the copy fails, and the
      block stands for the filter it was made from. */
  method FilterClone(f: Filter) returns (block: array<Cell>)
    ensures fresh(block) && block.Length == FILTER_SIZE + FilterSize(f)
    ensures FilterDenotes(block[..], 0, f, FILTER_SIZE, block.Length)
  {
    var size := FilterDataSize(f);
    block := new Cell[FILTER_SIZE + size](_ => Blank);
    FilterDominates(f, FILTER_SIZE, FILTER_SIZE);
    var ok, data', size' := FilterCopy(block, 0, f, FILTER_SIZE, size, block.Length);
    assert ok;
    FilterDenotesKept(block[..], block[..], 0, f, FILTER_SIZE, data', FILTER_SIZE, block.Length);
  }
}
