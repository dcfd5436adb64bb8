/** What events mean to the backend that they update: the record that it keeps of every inode. */
module Records {
  import opened Wrappers
  import opened Memory
  import opened Value
  import opened Fsevent

  type Id = seq<byte>

  type Attributes = map<CString, Option<Value>>

  datatype Link = Link(parent: Id, name: CString)

  /** What is known of an inode, and of the links to it. */
  datatype Record = Record(statx: Option<Statx>, symlink: Option<CString>, inode: Attributes, links: map<Link, Attributes>)

  const EMPTY: Record := Record(None, None, map[], map[])

  type Mirror = map<Id, Record>

  const SET: CString := [115, 101, 116]             // "set"
  const UNSET: CString := [117, 110, 115, 101, 116] // "unset"

  function RecordOf(m: Mirror, id: Id): Record {
    if id in m then m[id] else EMPTY
  }

  // ------------------------------------------------------------------ attributes

  /** Attributes as they are: the last pair of a key counts. */
  function Attributed(pairs: seq<Pair>): Attributes {
    if pairs == [] then map[] else Attributed(pairs[..|pairs| - 1])[pairs[|pairs| - 1].key := pairs[|pairs| - 1].value]
  }

  /** A value that says what to do with an attribute. */
  predicate IsOperation(value: Option<Value>) {
    value.Some? && value.value.Map? && |value.value.pairs| == 1 && value.value.pairs[0].key in {SET, UNSET}
  }

  /** Every attribute is given an operation. */
  predicate AreOperations(pairs: seq<Pair>) {
    forall i | 0 <= i < |pairs| :: IsOperation(pairs[i].value)
  }

  function Operated(attributes: Attributes, pairs: seq<Pair>): Attributes
    requires AreOperations(pairs)
  {
    if pairs == [] then attributes
    else
      var before, last := Operated(attributes, pairs[..|pairs| - 1]), pairs[|pairs| - 1];
      var operation := last.value.value.pairs[0];
      if operation.key == SET then before[last.key := operation.value] else before - {last.key}
  }

  // ------------------------------------------------------------------ events

  /** What an event makes of the record it is for, if it can be understood. */
  function Understood(r: Record, e: Event): Option<Record> {
    match e.detail
    case Upsert(statx, symlink) =>
      if !AreOperations(e.xattrs) then None
      else Some(Record(
        if statx.Some? then statx else r.statx,
        if symlink.Some? then symlink else r.symlink,
        Operated(r.inode, e.xattrs),
        r.links))
    case InodeXattr =>
      if !AreOperations(e.xattrs) then None else Some(r.(inode := Operated(r.inode, e.xattrs)))
    case OnLink(LinkEvent, parent, name, _) =>
      Some(r.(links := r.links[Link(parent, name) := Attributed(e.xattrs)]))
    case OnLink(UnlinkEvent, parent, name, _) =>
      Some(r.(links := r.links - {Link(parent, name)}))
    case OnLink(NsXattrEvent, parent, name, _) =>
      if !AreOperations(e.xattrs) then None
      else if Link(parent, name) !in r.links then Some(r)
      else Some(r.(links := r.links[Link(parent, name) := Operated(r.links[Link(parent, name)], e.xattrs)]))
    case _ => None
  }

  function UnderstoodAll(r: Record, events: seq<Event>): Option<Record>
    decreases |events|
  {
    if events == [] then Some(r)
    else
      match Understood(r, events[0])
      case None => None
      case Some(r') => UnderstoodAll(r', events[1..])
  }

  /** A mirror after some events, each applied to the record of its identifier. */
  function Updates(m: Mirror, events: seq<Event>): Option<Mirror>
    decreases |events|
  {
    if events == [] then Some(m)
    else
      match Understood(RecordOf(m, events[0].id), events[0])
      case None => None
      case Some(r) => Updates(m[events[0].id := r], events[1..])
  }

  // ------------------------------------------------------------------ laws

  /** Operations that set every attribute are worth the attributes. */
  lemma {:induction false} SetsAreAttributes(attributes: Attributes, operations: seq<Pair>, pairs: seq<Pair>)
    requires |operations| == |pairs|
    requires forall i | 0 <= i < |pairs| :: operations[i] == Pair(pairs[i].key, Some(Map([Pair(SET, pairs[i].value)])))
    ensures AreOperations(operations) && Operated(attributes, operations) == attributes + Attributed(pairs)
  {
    if pairs != [] {
      var n := |pairs| - 1;
      SetsAreAttributes(attributes, operations[..n], pairs[..n]);
      assert operations[n] == Pair(pairs[n].key, Some(Map([Pair(SET, pairs[n].value)])));
    } else {
      assert attributes + map[] == attributes;
    }
  }

  /** Attributes that are not operations never come out right if they are taken for some. */
  lemma OperationsAreNotAttributes(attributes: Attributes, pairs: seq<Pair>)
    requires pairs != [] && AreOperations(pairs)
    ensures Operated(attributes, pairs) != attributes + Attributed(pairs)
  {
  }

  /** Events of one identifier only touch its record. */
  lemma {:induction false} UpdatesOfOne(m: Mirror, events: seq<Event>, id: Id)
    requires events != [] && forall e | e in events :: e.id == id
    ensures var r := UnderstoodAll(RecordOf(m, id), events);
            Updates(m, events) == if r.Some? then Some(m[id := r.value]) else None
    decreases |events|
  {
    assert events[0] in events;
    var first := Understood(RecordOf(m, id), events[0]);
    if first.Some? && |events| > 1 {
      assert forall e | e in events[1..] :: e in events;
      var m' := m[id := first.value];
      UpdatesOfOne(m', events[1..], id);
      var r := UnderstoodAll(RecordOf(m', id), events[1..]);
      if r.Some? {
        assert m'[id := r.value] == m[id := r.value];
      }
    } else if first.Some? {
      assert events[1..] == [];
    }
  }

  lemma {:induction false} UpdatesOfConcat(m: Mirror, a: seq<Event>, b: seq<Event>)
    ensures var m' := Updates(m, a);
            Updates(m, a + b) == if m'.Some? then Updates(m'.value, b) else None
    decreases |a|
  {
    if a == [] {
      assert a + b == b;
    } else {
      assert (a + b)[1..] == a[1..] + b;
      var first := Understood(RecordOf(m, a[0].id), a[0]);
      if first.Some? {
        UpdatesOfConcat(m[a[0].id := first.value], a[1..], b);
      }
    }
  }
}
