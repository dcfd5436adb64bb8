/** Dumping one backend into another: entries become events, and the events are passed on in
    chunks.
 */
module Sync {
  import opened Wrappers
  import opened Memory
  import opened Value
  import opened Fsevent
  import opened Fsentry
  import opened Records

  /** The fields of an entry that are asked for. */
  datatype Projection = Projection(fields: set<Property>, statx: bv32)

  // ------------------------------------------------------------------ the events of an entry

  /** Every attribute with the operation that sets it. */
  function WithSet(pairs: seq<Pair>): seq<Pair> {
    seq(|pairs|, i requires 0 <= i < |pairs| => Pair(pairs[i].key, Some(Map([Pair(SET, pairs[i].value)]))))
  }

  function Nonempty(pairs: Option<seq<Pair>>): bool {
    pairs.Some? && pairs.value != []
  }

  function UpsertOf(f: Fsentry, p: Projection): Event
    requires f.id.Some?
  {
    Event(
      f.id.value,
      if InodeProperty in p.fields && f.inode.Some? then WithSet(f.inode.value) else [],
      Upsert(
        if StatxProperty in p.fields && f.statx.Some? then Some(f.statx.value.(mask := f.statx.value.mask & p.statx)) else None,
        if SymlinkProperty in p.fields then f.symlink else None))
  }

  function InodeXattrOf(f: Fsentry): Event
    requires f.id.Some? && f.inode.Some?
  {
    Event(f.id.value, WithSet(f.inode.value), InodeXattr)
  }

  function LinkOf(f: Fsentry, p: Projection): Event
    requires f.id.Some? && f.parent.Some? && f.name.Some?
  {
    Event(
      f.id.value,
      if NsProperty in p.fields && f.ns.Some? then f.ns.value else [],
      OnLink(LinkEvent, f.parent.value, f.name.value, false))
  }

  function NsXattrOf(f: Fsentry): Event
    requires f.id.Some? && f.parent.Some? && f.name.Some? && f.ns.Some?
  {
    Event(f.id.value, f.ns.value, OnLink(NsXattrEvent, f.parent.value, f.name.value, false))
  }

  predicate Named(f: Fsentry) {
    f.parent.Some? && f.name.Some?
  }

  /** The events of an entry: its inode or the attributes of its inode, then its link or the
      attributes of its link; none without an identifier. */
  function EventsOf(f: Fsentry, p: Projection): seq<Event> {
    if f.id.None? then []
    else
      var linked := ParentProperty in p.fields && NameProperty in p.fields && Named(f);
      (if IdProperty in p.fields then [UpsertOf(f, p)]
       else if InodeProperty in p.fields && Nonempty(f.inode) then [InodeXattrOf(f)]
       else [])
      + (if linked then [LinkOf(f, p)]
         else if NsProperty in p.fields && Named(f) && Nonempty(f.ns) then [NsXattrOf(f)]
         else [])
  }

  function AllEvents(entries: seq<Fsentry>, p: Projection): seq<Event> {
    if entries == [] then [] else EventsOf(entries[0], p) + AllEvents(entries[1..], p)
  }

  // ------------------------------------------------------------------ what the events amount to

  /** The field was asked for. */
  predicate Asks(p: Projection, field: Property) {
    field in p.fields
  }

  predicate AsksLink(p: Projection) {
    Asks(p, ParentProperty) && Asks(p, NameProperty)
  }

  function Projected(statx: Statx, p: Projection): Statx {
    Statx(statx.mask & p.statx, statx.mode, statx.others)
  }

  function LinkAt(f: Fsentry): Link
    requires Named(f)
  {
    Link(f.parent.value, f.name.value)
  }

  function NsOf(f: Fsentry, p: Projection): Attributes {
    if Asks(p, NsProperty) && f.ns.Some? then Attributed(f.ns.value) else map[]
  }

  /** A record with exactly what an entry has of the fields that were asked for. */
  function Synced(r: Record, f: Fsentry, p: Projection): Record {
    Record(
      if Asks(p, StatxProperty) && f.statx.Some? then Some(Projected(f.statx.value, p)) else r.statx,
      if Asks(p, SymlinkProperty) && f.symlink.Some? then f.symlink else r.symlink,
      if Asks(p, InodeProperty) && f.inode.Some? then r.inode + Attributed(f.inode.value) else r.inode,
      if !Named(f) then r.links
      else if AsksLink(p) then r.links[LinkAt(f) := NsOf(f, p)]
      else if LinkAt(f) in r.links then r.links[LinkAt(f) := r.links[LinkAt(f)] + NsOf(f, p)]
      else r.links)
  }

  /** Inode fields are only sent with the identifier. */
  predicate LeavesInodeOut(r: Record, f: Fsentry, p: Projection) {
    && !Asks(p, IdProperty)
    && ((Asks(p, StatxProperty) && f.statx.Some? && r.statx != Some(Projected(f.statx.value, p)))
        || (Asks(p, SymlinkProperty) && f.symlink.Some? && r.symlink != f.symlink))
  }

  /** The attributes of a link without the link are sent as they are, and taken for operations. */
  predicate MisstatesLink(r: Record, f: Fsentry, p: Projection) {
    && Asks(p, NsProperty) && !AsksLink(p) && Named(f) && Nonempty(f.ns)
    && (LinkAt(f) in r.links || !AreOperations(f.ns.value))
  }

  lemma InodePart(r: Record, f: Fsentry, p: Projection)
    requires f.id.Some?
    ensures var events := if Asks(p, IdProperty) then [UpsertOf(f, p)]
                          else if Asks(p, InodeProperty) && Nonempty(f.inode) then [InodeXattrOf(f)]
                          else [];
            var r' := UnderstoodAll(r, events);
            && r'.Some? && r'.value.links == r.links && r'.value.inode == Synced(r, f, p).inode
            && (LeavesInodeOut(r, f, p) <==>
                r'.value.statx != Synced(r, f, p).statx || r'.value.symlink != Synced(r, f, p).symlink)
  {
    hide Operated, Attributed;
    if f.inode.Some? {
      SetsAreAttributes(r.inode, WithSet(f.inode.value), f.inode.value);
    }
    assert r.inode + map[] == r.inode;
    SetsAreAttributes(r.inode, [], []);
    NoAttributes();
    if Asks(p, IdProperty) {
      UnderstoodOne(r, UpsertOf(f, p));
    } else if Asks(p, InodeProperty) && Nonempty(f.inode) {
      UnderstoodOne(r, InodeXattrOf(f));
    }
  }

  lemma LinkPart(r: Record, f: Fsentry, p: Projection)
    requires f.id.Some?
    ensures var events := if AsksLink(p) && Named(f) then [LinkOf(f, p)]
                          else if Asks(p, NsProperty) && Named(f) && Nonempty(f.ns) then [NsXattrOf(f)]
                          else [];
            var r' := UnderstoodAll(r, events);
            && (r'.Some? ==> r'.value == r.(links := r'.value.links))
            && (r'.Some? && r'.value.links == Synced(r, f, p).links <==> !MisstatesLink(r, f, p))
  {
    hide Operated, Attributed;
    NoAttributes();
    if AsksLink(p) && Named(f) {
      UnderstoodOne(r, LinkOf(f, p));
    } else if Asks(p, NsProperty) && Named(f) && Nonempty(f.ns) {
      UnderstoodOne(r, NsXattrOf(f));
      if AreOperations(f.ns.value) && LinkAt(f) in r.links {
        OperationsAreNotAttributes(r.links[LinkAt(f)], f.ns.value);
        var wrong := r.links[LinkAt(f) := Operated(r.links[LinkAt(f)], f.ns.value)];
        assert wrong[LinkAt(f)] != Synced(r, f, p).links[LinkAt(f)];
      }
    } else if Named(f) && LinkAt(f) in r.links && !AsksLink(p) {
      assert r.links[LinkAt(f)] + map[] == r.links[LinkAt(f)];
      assert Nonempty(f.ns) || f.ns.None? || f.ns.value == [];
      assert NsOf(f, p) == map[];
      assert r.links[LinkAt(f) := r.links[LinkAt(f)]] == r.links;
    }
  }

  lemma NoAttributes()
    ensures Attributed([]) == map[]
  {
  }

  lemma UnderstoodOne(r: Record, e: Event)
    ensures UnderstoodAll(r, [e]) == Understood(r, e)
  {
    var events := [e];
    assert events[1..] == [];
  }

  lemma {:induction false} UnderstoodOfConcat(r: Record, a: seq<Event>, b: seq<Event>)
    ensures var r' := UnderstoodAll(r, a);
            UnderstoodAll(r, a + b) == if r'.Some? then UnderstoodAll(r'.value, b) else None
    decreases |a|
  {
    if a == [] {
      assert a + b == b;
    } else {
      assert (a + b)[1..] == a[1..] + b;
      var first := Understood(r, a[0]);
      if first.Some? {
        UnderstoodOfConcat(first.value, a[1..], b);
      }
    }
  }

  /** The events of an entry give a backend exactly the fields that were asked for and that the
      entry has, unless inode fields are asked for without the identifier, or link attributes
      without the link. */
  lemma EventsSync(r: Record, f: Fsentry, p: Projection)
    requires f.id.Some?
    ensures UnderstoodAll(r, EventsOf(f, p)) == Some(Synced(r, f, p)) <==>
            !LeavesInodeOut(r, f, p) && !MisstatesLink(r, f, p)
  {
    hide Understood, UnderstoodAll, Operated, Attributed, UpsertOf, InodeXattrOf, LinkOf, NsXattrOf;
    var first := if Asks(p, IdProperty) then [UpsertOf(f, p)]
                 else if Asks(p, InodeProperty) && Nonempty(f.inode) then [InodeXattrOf(f)]
                 else [];
    var second := if AsksLink(p) && Named(f) then [LinkOf(f, p)]
                  else if Asks(p, NsProperty) && Named(f) && Nonempty(f.ns) then [NsXattrOf(f)]
                  else [];
    assert EventsOf(f, p) == first + second;
    UnderstoodOfConcat(r, first, second);
    InodePart(r, f, p);
    var r' := UnderstoodAll(r, first).value;
    LinkPart(r', f, p);
  }

  predicate IsLink(e: Event, kind: LinkKind) {
    e.detail.OnLink? && e.detail.kind == kind
  }

  ghost predicate AnyOf(events: seq<Event>, kind: Event -> bool) {
    exists i | 0 <= i < |events| :: kind(events[i])
  }

  /** An entry gives at most one event for its inode and, after it, one for its link: an upsert
      whenever identifiers are asked for, a link whenever both its parts are, and otherwise
      attributes if there are any. All are for its identifier. */
  lemma KindsOfEvents(f: Fsentry, p: Projection)
    ensures var events := EventsOf(f, p);
            && |events| <= 2 && (forall e | e in events :: f.id == Some(e.id))
            && (|events| == 2 ==> !events[0].detail.OnLink? && events[1].detail.OnLink?)
            && (AnyOf(events, (e: Event) => e.detail.Upsert?) <==> f.id.Some? && Asks(p, IdProperty))
            && (AnyOf(events, (e: Event) => e.detail.InodeXattr?) <==>
                f.id.Some? && !Asks(p, IdProperty) && Asks(p, InodeProperty) && Nonempty(f.inode))
            && (AnyOf(events, e => IsLink(e, LinkEvent)) <==> f.id.Some? && AsksLink(p) && Named(f))
            && (AnyOf(events, e => IsLink(e, NsXattrEvent)) <==>
                f.id.Some? && !AsksLink(p) && Asks(p, NsProperty) && Named(f) && Nonempty(f.ns))
  {
    hide UpsertOf, InodeXattrOf, LinkOf, NsXattrOf;
    var events := EventsOf(f, p);
    if f.id.Some? {
      EventKinds(f, p);
      var first := if Asks(p, IdProperty) then [UpsertOf(f, p)]
                   else if Asks(p, InodeProperty) && Nonempty(f.inode) then [InodeXattrOf(f)]
                   else [];
      var second := if AsksLink(p) && Named(f) then [LinkOf(f, p)]
                    else if Asks(p, NsProperty) && Named(f) && Nonempty(f.ns) then [NsXattrOf(f)]
                    else [];
      assert events == first + second;
      assert |first| > 0 ==> events[0] == first[0];
      assert |second| > 0 ==> events[|first|] == second[0];
    }
  }

  lemma EventKinds(f: Fsentry, p: Projection)
    requires f.id.Some?
    ensures UpsertOf(f, p).detail.Upsert? && UpsertOf(f, p).id == f.id.value
    ensures f.inode.Some? ==> InodeXattrOf(f).detail.InodeXattr? && InodeXattrOf(f).id == f.id.value
    ensures Named(f) ==> IsLink(LinkOf(f, p), LinkEvent) && LinkOf(f, p).id == f.id.value
    ensures Named(f) && f.ns.Some? ==> IsLink(NsXattrOf(f), NsXattrEvent) && NsXattrOf(f).id == f.id.value
  {
  }

  /** What has to be asked for together. */
  predicate Sufficient(p: Projection) {
    && (Asks(p, StatxProperty) || Asks(p, SymlinkProperty) ==> Asks(p, IdProperty))
    && (Asks(p, NsProperty) ==> AsksLink(p))
  }

  /** These are the projections with which every entry is synchronized right. */
  lemma SufficientIff(p: Projection)
    ensures Sufficient(p) <==>
            forall r, f: Fsentry | f.id.Some? :: UnderstoodAll(r, EventsOf(f, p)) == Some(Synced(r, f, p))
  {
    hide UnderstoodAll, EventsOf, Synced;
    forall r, f: Fsentry | f.id.Some?
      ensures UnderstoodAll(r, EventsOf(f, p)) == Some(Synced(r, f, p)) <==>
              !LeavesInodeOut(r, f, p) && !MisstatesLink(r, f, p)
    {
      EventsSync(r, f, p);
    }
    var inode := Fsentry(Some([]), None, None, Some(Statx(0, 0, [])), None, None, Some([]));
    var link := Fsentry(Some([]), Some([]), Some([]), None, Some([Pair([], None)]), None, None);
    if !Sufficient(p) {
      assert !IsOperation(link.ns.value[0].value);
      assert LeavesInodeOut(EMPTY, inode, p) || MisstatesLink(EMPTY, link, p);
    }
  }

  /** The record of an identifier after all entries, each in its turn. */
  function SyncedAll(r: Record, entries: seq<Fsentry>, p: Projection, id: Id): Record
    decreases |entries|
  {
    if entries == [] then r
    else SyncedAll(if entries[0].id == Some(id) then Synced(r, entries[0], p) else r, entries[1..], p, id)
  }

  /** After these updates, the records are those of the entries. */
  ghost predicate Mirrors(m: Mirror, events: seq<Event>, entries: seq<Fsentry>, p: Projection) {
    var m' := Updates(m, events);
    m'.Some? && forall id :: RecordOf(m'.value, id) == SyncedAll(RecordOf(m, id), entries, p, id)
  }

  lemma EntryUpdates(m: Mirror, f: Fsentry, p: Projection)
    requires Sufficient(p)
    ensures var m' := Updates(m, EventsOf(f, p));
            m'.Some? && forall id :: RecordOf(m'.value, id) ==
                                     if f.id == Some(id) then Synced(RecordOf(m, id), f, p) else RecordOf(m, id)
  {
    hide Synced, Understood;
    if f.id.Some? {
      SufficientIff(p);
      var id := f.id.value;
      var r := UnderstoodAll(RecordOf(m, id), EventsOf(f, p));
      assert r == Some(Synced(RecordOf(m, id), f, p));
      if EventsOf(f, p) != [] {
        UpdatesOfOne(m, EventsOf(f, p), id);
      }
    }
  }

  /** A dump leaves in every record exactly what the entries of its identifier have of the fields
      that were asked for, whatever the mirror held before. */
  lemma {:induction false} EventsMirror(m: Mirror, entries: seq<Fsentry>, p: Projection)
    requires Sufficient(p)
    ensures Mirrors(m, AllEvents(entries, p), entries, p)
    decreases |entries|
  {
    hide Synced, Updates, EventsOf, RecordOf;
    if entries == [] {
      NothingUpdates(m);
    } else {
      var events, rest := EventsOf(entries[0], p), AllEvents(entries[1..], p);
      EntryUpdates(m, entries[0], p);
      var m' := Updates(m, events).value;
      EventsMirror(m', entries[1..], p);
      UpdatesOfConcat(m, events, rest);
    }
  }

  lemma NothingUpdates(m: Mirror)
    ensures Updates(m, []) == Some(m)
  {
  }

  /** Where no other entry has its identifier, an empty mirror holds just the entry then. */
  lemma {:induction false} SyncedOnce(r: Record, entries: seq<Fsentry>, p: Projection, id: Id, k: nat)
    requires k < |entries| && entries[k].id == Some(id)
    requires forall i | 0 <= i < |entries| && i != k :: entries[i].id != Some(id)
    ensures SyncedAll(r, entries, p, id) == Synced(r, entries[k], p)
    decreases |entries|
  {
    hide Synced;
    if k > 0 {
      SyncedOnce(r, entries[1..], p, id, k - 1);
    } else {
      SyncedNever(Synced(r, entries[0], p), entries[1..], p, id);
    }
  }

  lemma {:induction false} SyncedNever(r: Record, entries: seq<Fsentry>, p: Projection, id: Id)
    requires forall i | 0 <= i < |entries| :: entries[i].id != Some(id)
    ensures SyncedAll(r, entries, p, id) == r
    decreases |entries|
  {
    if entries != [] {
      SyncedNever(r, entries[1..], p, id);
    }
  }

  // ------------------------------------------------------------------ the converting iterator

  datatype Todo = Todo(upsert: bool, inodeXattr: bool, link: bool, nsXattr: bool)

  const NOTHING: Todo := Todo(false, false, false, false)

  /** The entry has what the flags call for. */
  predicate Fits(todo: Todo, f: Fsentry) {
    && f.id.Some? && (todo.inodeXattr ==> f.inode.Some? && !todo.upsert)
    && (todo.link || todo.nsXattr ==> Named(f) && !(todo.link && todo.nsXattr))
    && (todo.nsXattr ==> f.ns.Some?)
  }

  /** The events that the flags call for. */
  function Called(todo: Todo, f: Fsentry, p: Projection): seq<Event>
    requires Fits(todo, f)
  {
    (if todo.upsert then [UpsertOf(f, p)] else if todo.inodeXattr then [InodeXattrOf(f)] else [])
    + (if todo.link then [LinkOf(f, p)] else if todo.nsXattr then [NsXattrOf(f)] else [])
  }

  /** What kind of events an entry is converted into. */
  function FlagsOf(f: Fsentry, p: Projection): Todo {
    var upsert := IdProperty in p.fields;
    var inodeXattr := !upsert && InodeProperty in p.fields && Nonempty(f.inode);
    var link := ParentProperty in p.fields && NameProperty in p.fields && f.parent.Some? && f.name.Some?;
    var nsXattr := !link && f.parent.Some? && f.name.Some? && NsProperty in p.fields && Nonempty(f.ns);
    Todo(upsert, inodeXattr, link, nsXattr)
  }

  lemma FlagsCall(f: Fsentry, p: Projection)
    requires f.id.Some?
    ensures Fits(FlagsOf(f, p), f) && Called(FlagsOf(f, p), f, p) == EventsOf(f, p)
    ensures FlagsOf(f, p) == NOTHING ==> EventsOf(f, p) == []
  {
  }

  /** Does the first thing that is called for. */
  function Do(todo: Todo, f: Fsentry, p: Projection): (Event, Todo)
    requires Fits(todo, f) && todo != NOTHING
  {
    if todo.upsert then (UpsertOf(f, p), todo.(upsert := false))
    else if todo.inodeXattr then (InodeXattrOf(f), todo.(inodeXattr := false))
    else if todo.link then (LinkOf(f, p), todo.(link := false))
    else (NsXattrOf(f), todo.(nsXattr := false))
  }

  lemma DoIsFirst(todo: Todo, f: Fsentry, p: Projection)
    requires Fits(todo, f) && todo != NOTHING
    ensures var (event, rest) := Do(todo, f, p);
            Fits(rest, f) && Called(todo, f, p) == [event] + Called(rest, f, p) && (rest == NOTHING ==> Called(rest, f, p) == [])
  {
  }

  lemma NoMore(entries: seq<Fsentry>, pos: nat, p: Projection)
    requires pos == |entries|
    ensures AllEvents(entries[pos..], p) == []
  {
  }

  lemma OneEntry(entries: seq<Fsentry>, pos: nat, p: Projection)
    requires pos < |entries|
    ensures var f, rest := entries[pos], AllEvents(entries[pos + 1..], p);
            && AllEvents(entries[pos..], p) == EventsOf(f, p) + rest
            && (f.id.None? ==> EventsOf(f, p) + rest == [] + rest)
            && [] + rest == rest
  {
    assert entries[pos..][1..] == entries[pos + 1..];
  }

  class Convert {
    const entries: seq<Fsentry>
    const projection: Projection
    var pos: nat
    var entry: Option<Fsentry>
    var todo: Todo

    predicate Possible()
      reads this
    {
      pos <= |entries| && (todo == NOTHING || (entry.Some? && Fits(todo, entry.value)))
    }

    /** What the entry at hand still gives. */
    ghost function Pending(): seq<Event>
      reads this
      requires Possible()
    {
      if todo == NOTHING then [] else Called(todo, entry.value, projection)
    }

    /** What is still to come. */
    ghost function Rest(): seq<Event>
      reads this
      requires Possible()
    {
      Pending() + AllEvents(entries[pos..], projection)
    }

    constructor (entries: seq<Fsentry>, projection: Projection)
      ensures Possible() && Rest() == AllEvents(entries, projection)
      ensures this.entries == entries && this.projection == projection
    {
      this.entries, this.projection := entries, projection;
      pos, entry, todo := 0, None, NOTHING;
      new;
      assert entries[0..] == entries;
    }

    /** Goes to the next entry that gives an event. */
    method Advance() returns (ok: bool)
      requires Possible() && todo == NOTHING
      modifies this
      ensures Possible() && Rest() == old(Rest())
      ensures ok <==> todo != NOTHING
      ensures !ok ==> Rest() == []
    {
      hide AllEvents, EventsOf, Called, Fits, FlagsOf;
      while true
        invariant Possible() && todo == NOTHING && Rest() == old(Rest())
        decreases |entries| - pos
      {
        if pos == |entries| {
          NoMore(entries, pos, projection);
          return false;
        }
        var f := entries[pos];
        OneEntry(entries, pos, projection);
        pos := pos + 1;
        if f.id.None? {
          continue;
        }
        var flags := FlagsOf(f, projection);
        FlagsCall(f, projection);
        if flags.upsert || flags.inodeXattr || flags.link || flags.nsXattr {
          entry, todo := Some(f), flags;
          return true;
        }
      }
    }

    /** One of the events of the entry at hand. */
    method Give() returns (event: Event)
      requires Possible() && todo != NOTHING
      modifies this
      ensures Possible() && old(Rest()) == [event] + Rest()
    {
      hide AllEvents, Called, Do, Fits;
      DoIsFirst(todo, entry.value, projection);
      ghost var before, later := Pending(), AllEvents(entries[pos..], projection);
      var (first, rest) := Do(todo, entry.value, projection);
      event, todo := first, rest;
      ghost var after := Pending();
      assert before == [event] + after;
      assert before + later == [event] + (after + later);
    }

    /** The next event, in order. */
    method Next() returns (event: Option<Event>)
      requires Possible()
      modifies this
      ensures Possible()
      ensures event.None? <==> old(Rest()) == []
      ensures event.Some? ==> old(Rest()) == [event.value] + Rest()
      ensures event.None? ==> Rest() == []
    {
      hide Convert.Rest;
      if todo == NOTHING {
        var ok := Advance();
        if !ok {
          return None;
        }
      }
      var first := Give();
      return Some(first);
    }
  }

  // ------------------------------------------------------------------ chunks

  /** A chunk: its first element was read when it was made. */
  class Chunk {
    const source: Convert
    const first: Event
    var count: nat // how many more it may give
    var once: bool

    constructor (source: Convert, first: Event, size: nat)
      requires size > 0
      ensures this.source == source && this.first == first && count == size - 1 && !once
    {
      this.source, this.first := source, first;
      count, once := size - 1, false;
    }

    method Next() returns (event: Option<Event>)
      requires source.Possible()
      modifies this, source
      ensures source.Possible() && once
      ensures !old(once) ==> event == Some(first) && count == old(count) && source.Rest() == old(source.Rest())
      ensures old(once) ==> (event.None? <==> old(count) == 0 || old(source.Rest()) == [])
      ensures old(once) && event.Some? ==> count == old(count) - 1 && old(source.Rest()) == [event.value] + source.Rest()
      ensures old(once) && event.None? ==> count == old(count) && source.Rest() == old(source.Rest())
    {
      hide Convert.Rest, Convert.Possible;
      if !once {
        once := true;
        return Some(first);
      }
      if count == 0 {
        return None;
      }
      event := source.Next();
      if event.Some? {
        count := count - 1;
      }
    }
  }

  /** What a backend takes from a chunk: all of it. */
  method Update(chunk: Chunk) returns (events: seq<Event>)
    requires chunk.source.Possible() && !chunk.once
    modifies chunk, chunk.source
    ensures chunk.source.Possible() && events != [] && |events| <= old(chunk.count) + 1
    ensures [chunk.first] + old(chunk.source.Rest()) == events + chunk.source.Rest()
    ensures |events| < old(chunk.count) + 1 ==> chunk.source.Rest() == []
  {
    hide Convert.Rest, Convert.Possible;
    ghost var whole := [chunk.first] + chunk.source.Rest();
    ghost var size := chunk.count + 1;
    var event := chunk.Next();
    events := [chunk.first];
    while true
      invariant chunk.source.Possible() && chunk.once && events != [] && |events| + chunk.count == size
      invariant events + chunk.source.Rest() == whole
      decreases chunk.count
    {
      event := chunk.Next();
      if event.None? {
        return;
      }
      assert events + ([event.value] + chunk.source.Rest()) == events + [event.value] + chunk.source.Rest();
      events := events + [event.value];
    }
  }

  function Joined(chunks: seq<seq<Event>>): seq<Event> {
    if chunks == [] then [] else Joined(chunks[..|chunks| - 1]) + chunks[|chunks| - 1]
  }

  lemma DumpMirrors(entries: seq<Fsentry>, p: Projection)
    ensures Sufficient(p) ==> forall m :: Mirrors(m, AllEvents(entries, p), entries, p)
  {
    forall m | Sufficient(p) ensures Mirrors(m, AllEvents(entries, p), entries, p) {
      EventsMirror(m, entries, p);
    }
  }

  /** Passes all events on: in order, each once, in chunks of which only the last may be short. */
  method Dump(entries: seq<Fsentry>, projection: Projection) returns (chunks: seq<seq<Event>>)
    ensures Joined(chunks) == AllEvents(entries, projection)
    ensures Sufficient(projection) ==> forall m :: Mirrors(m, Joined(chunks), entries, projection)
    ensures forall i | 0 <= i < |chunks| :: 0 < |chunks[i]| <= ITER_CHUNK_SIZE
    ensures forall i | 0 <= i < |chunks| - 1 :: |chunks[i]| == ITER_CHUNK_SIZE
  {
    hide Convert.Rest, Convert.Possible, AllEvents;
    var events := new Convert(entries, projection);
    chunks := [];
    ghost var all := AllEvents(entries, projection);
    assert [] + all == all;
    while true
      invariant events.Possible() && fresh(events) && Joined(chunks) + events.Rest() == all
      invariant forall i | 0 <= i < |chunks| :: 0 < |chunks[i]| <= ITER_CHUNK_SIZE
      invariant forall i | 0 <= i < |chunks| :: |chunks[i]| == ITER_CHUNK_SIZE || (i == |chunks| - 1 && events.Rest() == [])
      decreases |events.Rest()|
    {
      ghost var rest := events.Rest();
      var first := events.Next();
      if first.None? {
        assert Joined(chunks) + [] == Joined(chunks);
        DumpMirrors(entries, projection);
        return;
      }
      var chunk := new Chunk(events, first.value, ITER_CHUNK_SIZE);
      var update := Update(chunk);
      assert rest == update + events.Rest();
      assert Joined(chunks) + rest == Joined(chunks) + update + events.Rest();
      assert (chunks + [update])[..|chunks|] == chunks;
      chunks := chunks + [update];
    }
  }
}
