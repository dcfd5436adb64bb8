/** The deduplicator: it pushes the events of the source into a pool that keeps one list of
    events for each identifier, and flushes the pool into a batch when it is full.

    How an event is merged into the list of its identifier is a parameter; it may leave nothing.
 */
module Deduplicator {
  import opened Wrappers
  import opened Fsevent
  import opened Pipeline
  import opened PipelineOrder

  type Id = seq<byte>

  type Merge = (seq<Event>, Event) -> seq<Event>

  /** An event, and the changelog record that it comes from. */
  datatype Record = Record(index: nat, event: Event)

  datatype PushResult = Inserted | Merged | Full | AlreadyFull

  // ------------------------------------------------------------------ what the pool holds

  /** What becomes of a list when an event is pushed. */
  function Push(merge: Merge, list: seq<Event>, e: Event): seq<Event> {
    if list == [] then [e] else merge(list, e)
  }

  /** The list of an identifier after some events of it. */
  function Fold(merge: Merge, events: seq<Event>): seq<Event> {
    if events == [] then [] else Push(merge, Fold(merge, events[..|events| - 1]), events[|events| - 1])
  }

  /** The list of an identifier, and none when everything cancelled out. */
  function ListOf(merge: Merge, events: seq<Event>, id: Id): seq<Event> {
    Fold(merge, OfId(events, id))
  }

  /** Merging events of one identifier gives events of that identifier. */
  ghost predicate KeepsId(merge: Merge) {
    forall list: seq<Event>, e: Event | AllOf(list, e.id) :: AllOf(merge(list, e), e.id)
  }

  ghost predicate AllOf(events: seq<Event>, id: Id) {
    forall e | e in events :: e.id == id
  }

  lemma PushedListOf(merge: Merge, events: seq<Event>, e: Event, id: Id)
    ensures ListOf(merge, events + [e], id) ==
            if id == e.id then Push(merge, ListOf(merge, events, id), e) else ListOf(merge, events, id)
  {
    assert (events + [e])[..|events|] == events;
    var some := OfId(events, id);
    if id == e.id {
      assert (some + [e])[..|some|] == some;
    } else {
      assert some + [] == some;
    }
  }

  lemma {:induction false} FoldKeepsId(merge: Merge, events: seq<Event>, id: Id)
    requires KeepsId(merge)
    ensures AllOf(ListOf(merge, events, id), id)
    decreases |events|
  {
    if events != [] {
      var n := |events| - 1;
      FoldKeepsId(merge, events[..n], id);
      assert events == events[..n] + [events[n]];
      PushedListOf(merge, events[..n], events[n], id);
    }
  }

  ghost predicate Unique(ids: seq<Id>) {
    forall i, j | 0 <= i < j < |ids| :: ids[i] != ids[j]
  }

  lemma WithoutKeeps(ids: seq<Id>, k: nat)
    requires k < |ids| && Unique(ids)
    ensures Unique(Without(ids, k)) && ids[k] !in Without(ids, k)
    ensures forall x | x in ids :: x == ids[k] || x in Without(ids, k)
    ensures forall x | x in Without(ids, k) :: x in ids
  {
    var rest := Without(ids, k);
    forall x | x in ids ensures x == ids[k] || x in rest {
      var i :| 0 <= i < |ids| && ids[i] == x;
      if i != k {
        assert rest[if i < k then i else i - 1] == x;
      }
    }
  }

  /** The lists are those of the events that were pushed; the identifiers are ordered. */
  ghost predicate Pooled(merge: Merge, ids: seq<Id>, lists: map<Id, seq<Event>>, pushed: seq<Event>) {
    && Unique(ids)
    && (forall id :: id in ids <==> id in lists)
    && (forall id :: ListOf(merge, pushed, id) == if id in lists then lists[id] else [])
    && (forall id | id in lists :: lists[id] != [])
  }

  /** An event of a known identifier: its list moves to the end, or disappears. */
  lemma MergeKeeps(merge: Merge, ids: seq<Id>, lists: map<Id, seq<Event>>, pushed: seq<Event>, e: Event, k: nat)
    requires Pooled(merge, ids, lists, pushed) && k < |ids| && ids[k] == e.id
    ensures var list := merge(lists[e.id], e);
            var rest := Without(ids, k);
            && (list == [] ==> Pooled(merge, rest, lists - {e.id}, pushed + [e]))
            && (list != [] ==> Pooled(merge, rest + [e.id], lists[e.id := list], pushed + [e]))
  {
    hide ListOf;
    WithoutKeeps(ids, k);
    forall id ensures ListOf(merge, pushed + [e], id) ==
                      if id == e.id then Push(merge, ListOf(merge, pushed, id), e) else ListOf(merge, pushed, id) {
      PushedListOf(merge, pushed, e, id);
    }
  }

  lemma InsertKeeps(merge: Merge, ids: seq<Id>, lists: map<Id, seq<Event>>, pushed: seq<Event>, e: Event)
    requires Pooled(merge, ids, lists, pushed) && e.id !in lists
    ensures Pooled(merge, ids + [e.id], lists[e.id := [e]], pushed + [e])
  {
    hide ListOf;
    forall id ensures ListOf(merge, pushed + [e], id) ==
                      if id == e.id then Push(merge, ListOf(merge, pushed, id), e) else ListOf(merge, pushed, id) {
      PushedListOf(merge, pushed, e, id);
    }
  }

  // ------------------------------------------------------------------ in what order

  function Dropped(ids: seq<Id>, id: Id): seq<Id> {
    if ids == [] then []
    else Dropped(ids[..|ids| - 1], id) + if ids[|ids| - 1] == id then [] else [ids[|ids| - 1]]
  }

  /** The identifiers with events left, by their last event. */
  function Recent(merge: Merge, events: seq<Event>): seq<Id> {
    if events == [] then []
    else
      var id := events[|events| - 1].id;
      Dropped(Recent(merge, events[..|events| - 1]), id) + if ListOf(merge, events, id) == [] then [] else [id]
  }

  lemma {:induction false} DroppedNone(ids: seq<Id>, id: Id)
    requires id !in ids
    ensures Dropped(ids, id) == ids
  {
    if ids != [] {
      DroppedNone(ids[..|ids| - 1], id);
    }
  }

  lemma {:induction false} DroppedIs(ids: seq<Id>, k: nat)
    requires k < |ids| && Unique(ids)
    ensures Dropped(ids, ids[k]) == Without(ids, k)
  {
    var n := |ids| - 1;
    if k == n {
      DroppedNone(ids[..n], ids[n]);
      assert Without(ids, n) == ids[..n];
    } else {
      DroppedIs(ids[..n], k);
      assert Without(ids, k) == Without(ids[..n], k) + [ids[n]];
    }
  }

  /** After an event, its identifier comes last. */
  lemma RecentAfter(merge: Merge, events: seq<Event>, e: Event)
    ensures Recent(merge, events + [e]) ==
            Dropped(Recent(merge, events), e.id) + if Push(merge, ListOf(merge, events, e.id), e) == [] then [] else [e.id]
  {
    hide Dropped, ListOf;
    PushedListOf(merge, events, e, e.id);
    assert (events + [e])[..|events|] == events;
  }

  lemma MergeReorders(merge: Merge, ids: seq<Id>, lists: map<Id, seq<Event>>, pushed: seq<Event>, e: Event, k: nat)
    requires Pooled(merge, ids, lists, pushed) && k < |ids| && ids[k] == e.id && ids == Recent(merge, pushed)
    ensures Recent(merge, pushed + [e]) == Without(ids, k) + if merge(lists[e.id], e) == [] then [] else [e.id]
  {
    hide Dropped, ListOf, Recent;
    RecentAfter(merge, pushed, e);
    DroppedIs(ids, k);
    assert ids[k] in ids;
  }

  lemma InsertReorders(merge: Merge, ids: seq<Id>, lists: map<Id, seq<Event>>, pushed: seq<Event>, e: Event)
    requires Pooled(merge, ids, lists, pushed) && e.id !in lists && ids == Recent(merge, pushed)
    ensures Recent(merge, pushed + [e]) == ids + [e.id]
  {
    hide Dropped, ListOf, Recent;
    RecentAfter(merge, pushed, e);
    DroppedNone(ids, e.id);
  }

  /** The lists of some identifiers that go to a worker, one after the other. */
  function ListsFor(merge: Merge, events: seq<Event>, route: Id -> nat, w: nat, ids: seq<Id>): seq<Event> {
    if ids == [] then []
    else
      ListsFor(merge, events, route, w, ids[..|ids| - 1])
      + if route(ids[|ids| - 1]) == w then ListOf(merge, events, ids[|ids| - 1]) else []
  }

  /** Every sub-batch is made of the lists of its identifiers, the one with the latest event last. */
  ghost predicate Composed(batch: seq<SubBatch>, route: Id -> nat, merge: Merge, events: seq<Event>) {
    forall i | 0 <= i < |batch| :: batch[i].events == ListsFor(merge, events, route, batch[i].worker, Recent(merge, events))
  }

  ghost predicate Listed(events: seq<seq<Event>>, route: Id -> nat, merge: Merge, pushed: seq<Event>, ids: seq<Id>) {
    forall w | 0 <= w < |events| :: events[w] == ListsFor(merge, pushed, route, w, ids)
  }

  lemma ListedNone(events: seq<seq<Event>>, route: Id -> nat, merge: Merge, pushed: seq<Event>, ids: seq<Id>)
    requires ids == [] && forall w | 0 <= w < |events| :: events[w] == []
    ensures Listed(events, route, merge, pushed, ids)
  {
  }

  lemma ListedNext(
    merge: Merge, events: seq<seq<Event>>, route: Id -> nat, ids: seq<Id>, i: nat, lists: map<Id, seq<Event>>, pushed: seq<Event>)
    requires Pooled(merge, ids, lists, pushed) && i < |ids| && route(ids[i]) < |events| && ids[i] in lists
    requires Listed(events, route, merge, pushed, ids[..i])
    ensures var v := route(ids[i]);
            Listed(events[v := events[v] + lists[ids[i]]], route, merge, pushed, ids[..i + 1])
  {
    hide ListOf;
    var all := ids[..i + 1];
    assert all[..|all| - 1] == ids[..i] && all[|all| - 1] == ids[i];
    assert ListOf(merge, pushed, ids[i]) == lists[ids[i]];
    assert forall some: seq<Event> :: some + [] == some;
  }

  lemma GatheredIsComposed(
    merge: Merge, batch: seq<SubBatch>, events: seq<seq<Event>>, route: Id -> nat, ids: seq<Id>, pushed: seq<Event>, workers: nat)
    requires |events| == workers && Gathered(batch, events, workers) && Listed(events, route, merge, pushed, ids)
    requires ids == Recent(merge, pushed)
    ensures Composed(batch, route, merge, pushed)
  {
    hide ListsFor, Recent;
  }

  // ------------------------------------------------------------------ what a flush returns

  /** The events of a worker's sub-batch for an identifier. */
  ghost predicate Holds(batch: seq<SubBatch>, route: Id -> nat, merge: Merge, events: seq<Event>) {
    forall i, id | 0 <= i < |batch| :: HoldsAt(batch[i], route, merge, events, id)
  }

  ghost predicate HoldsAt(sub: SubBatch, route: Id -> nat, merge: Merge, events: seq<Event>, id: Id) {
    OfId(sub.events, id) == if route(id) == sub.worker then ListOf(merge, events, id) else []
  }

  /** Every identifier with events left has a sub-batch. */
  ghost predicate Covers(batch: seq<SubBatch>, route: Id -> nat, merge: Merge, events: seq<Event>) {
    forall id | ListOf(merge, events, id) != [] :: exists i | 0 <= i < |batch| :: batch[i].worker == route(id)
  }

  /** One sub-batch for each worker that has something to do. */
  ghost predicate SplitByWorker(batch: seq<SubBatch>, workers: nat) {
    && batch != []
    && (forall i | 0 <= i < |batch| :: batch[i].worker < workers && batch[i].events != [])
    && (forall i, j | 0 <= i < j < |batch| :: batch[i].worker < batch[j].worker)
  }

  /** What was spread over the workers: whole lists, each to the worker of its identifier. */
  ghost predicate Spread(events: seq<seq<Event>>, route: Id -> nat, ids: seq<Id>, lists: map<Id, seq<Event>>)
    requires forall id | id in ids :: id in lists
  {
    forall w, id | 0 <= w < |events| :: SpreadAt(events[w], w, route, ids, lists, id)
  }

  ghost predicate SpreadAt(some: seq<Event>, w: nat, route: Id -> nat, ids: seq<Id>, lists: map<Id, seq<Event>>, id: Id)
    requires id in ids ==> id in lists
  {
    OfId(some, id) == if route(id) == w && id in ids then lists[id] else []
  }

  lemma {:induction false} OfIdAll(events: seq<Event>, id: Id)
    requires AllOf(events, id)
    ensures OfId(events, id) == events
  {
    if events != [] {
      var n := |events| - 1;
      assert forall e | e in events[..n] :: e in events;
      OfIdAll(events[..n], id);
      assert events[n] in events;
      assert events == events[..n] + [events[n]];
    }
  }

  lemma SpreadNext(
    merge: Merge, events: seq<seq<Event>>, route: Id -> nat, ids: seq<Id>, i: nat, lists: map<Id, seq<Event>>, pushed: seq<Event>)
    requires KeepsId(merge) && Pooled(merge, ids, lists, pushed) && i < |ids| && route(ids[i]) < |events|
    requires Spread(events, route, ids[..i], lists)
    ensures var w := route(ids[i]);
            Spread(events[w := events[w] + lists[ids[i]]], route, ids[..i + 1], lists)
  {
    hide OfId, ListOf;
    var id := ids[i];
    var v := route(id);
    var list := lists[id];
    var events' := events[v := events[v] + list];
    assert id in ids && ids[..i + 1] == ids[..i] + [id] && id !in ids[..i];
    FoldKeepsId(merge, pushed, id);
    assert list == ListOf(merge, pushed, id);
    var ids' := ids[..i + 1];
    forall w, x | 0 <= w < |events'| ensures SpreadAt(events'[w], w, route, ids', lists, x) {
      assert SpreadAt(events[w], w, route, ids[..i], lists, x);
      if w == v {
        OfIdConcat(events[v], list, x);
        if x == id {
          OfIdAll(list, id);
        } else {
          OfIdNone(list, x);
        }
      } else {
        assert events'[w] == events[w];
      }
    }
  }

  lemma SpreadNone(events: seq<seq<Event>>, route: Id -> nat, ids: seq<Id>, lists: map<Id, seq<Event>>)
    requires ids == [] && forall w | 0 <= w < |events| :: events[w] == []
    ensures Spread(events, route, ids, lists)
  {
  }

  /** The sub-batches of the first workers, in order. */
  ghost predicate Gathered(batch: seq<SubBatch>, events: seq<seq<Event>>, w: nat)
    requires w <= |events|
  {
    && (forall i | 0 <= i < |batch| ::
          batch[i].worker < w && batch[i].events == events[batch[i].worker] && batch[i].events != [])
    && (forall i, j | 0 <= i < j < |batch| :: batch[i].worker < batch[j].worker)
    && (forall v | 0 <= v < w && events[v] != [] :: exists i | 0 <= i < |batch| :: batch[i].worker == v)
  }

  lemma GatherNext(batch: seq<SubBatch>, events: seq<seq<Event>>, w: nat)
    requires w < |events| && Gathered(batch, events, w)
    ensures Gathered(if events[w] != [] then batch + [SubBatch(w, events[w])] else batch, events, w + 1)
  {
    var more := batch + [SubBatch(w, events[w])];
    forall v | 0 <= v < w + 1 && events[v] != [] ensures exists i | 0 <= i < |more| :: more[i].worker == v {
      if v < w {
        var i :| 0 <= i < |batch| && batch[i].worker == v;
        assert more[i].worker == v;
      } else {
        assert more[|batch|].worker == v;
      }
    }
    if events[w] == [] {
      forall v | 0 <= v < w + 1 && events[v] != [] ensures exists i | 0 <= i < |batch| :: batch[i].worker == v {
        assert v < w;
      }
    }
  }

  lemma GatheredIsBatch(
    merge: Merge, batch: seq<SubBatch>, events: seq<seq<Event>>, route: Id -> nat, ids: seq<Id>, lists: map<Id, seq<Event>>,
    pushed: seq<Event>, workers: nat)
    requires Pooled(merge, ids, lists, pushed) && ids != [] && |events| == workers && forall id :: route(id) < workers
    requires Spread(events, route, ids, lists) && Gathered(batch, events, workers)
    ensures SplitByWorker(batch, workers) && Holds(batch, route, merge, pushed) && Covers(batch, route, merge, pushed)
  {
    hide ListOf, OfId;
    forall i, id | 0 <= i < |batch| ensures HoldsAt(batch[i], route, merge, pushed, id) {
      assert SpreadAt(events[batch[i].worker], batch[i].worker, route, ids, lists, id);
    }
    forall id | id in lists ensures exists i | 0 <= i < |batch| :: batch[i].worker == route(id) {
      assert id in ids && SpreadAt(events[route(id)], route(id), route, ids, lists, id);
      NothingOfId(events[route(id)], id);
    }
    assert ids[0] in lists;
  }

  lemma GatheredNone(events: seq<seq<Event>>)
    ensures Gathered([], events, 0)
  {
  }

  lemma NothingOfId(events: seq<Event>, id: Id)
    ensures events == [] ==> OfId(events, id) == []
  {
  }

  lemma Emptied(merge: Merge, ids: seq<Id>, lists: map<Id, seq<Event>>, pushed: seq<Event>)
    requires ids == [] && (lists == map[] || Pooled(merge, ids, lists, pushed))
    ensures Pooled(merge, ids, lists, [])
  {
  }

  lemma NoneRecent(merge: Merge)
    ensures Recent(merge, []) == []
  {
  }

  class Pool {
    const size: nat
    const merge: Merge
    var ids: seq<Id> // by time of their last event
    var lists: map<Id, seq<Event>>
    var needToFlush: bool
    ghost var pushed: seq<Event> // since the last flush

    ghost predicate Valid()
      reads this
    {
      && size > 0 && |ids| <= size && (needToFlush ==> |ids| == size)
      && KeepsId(merge) && Pooled(merge, ids, lists, pushed) && ids == Recent(merge, pushed)
    }

    constructor (size: nat, merge: Merge)
      requires size > 0 && KeepsId(merge)
      ensures Valid() && this.size == size && this.merge == merge && pushed == [] && !needToFlush
    {
      this.size := size;
      this.merge := merge;
      ids := [];
      lists := map[];
      needToFlush := false;
      pushed := [];
    }

    method IndexOf(id: Id) returns (k: nat)
      requires id in ids
      ensures k < |ids| && ids[k] == id
    {
      k := 0;
      while ids[k] != id
        invariant k < |ids| && id !in ids[..k]
        decreases |ids| - k
      {
        assert ids == ids[..k] + [ids[k]] + ids[k + 1..];
        k := k + 1;
      }
    }

    /** Full when the event has a new identifier and there is no room for it; nothing is pushed
        then. Otherwise the event is inserted or merged. */
    method PushEvent(e: Event) returns (r: PushResult)
      requires Valid()
      modifies this
      ensures Valid()
      ensures r.AlreadyFull? <==> old(|ids| == size && needToFlush)
      ensures r.Full? <==> !r.AlreadyFull? && e.id !in old(lists) && old(|ids|) == size
      ensures r.Full? ==> needToFlush
      ensures r.Full? || r.AlreadyFull? ==> pushed == old(pushed) && ids == old(ids)
      ensures r.Inserted? || r.Merged? ==> pushed == old(pushed) + [e] && needToFlush == old(needToFlush)
    {
      hide ListOf, Unique, Recent;
      if |ids| == size && needToFlush {
        return AlreadyFull;
      }
      if e.id in lists {
        var k := IndexOf(e.id);
        MergeKeeps(merge, ids, lists, pushed, e, k);
        MergeReorders(merge, ids, lists, pushed, e, k);
        var list := merge(lists[e.id], e);
        ids := ids[..k] + ids[k + 1..];
        if list == [] {
          lists := lists - {e.id};
        } else {
          ids := ids + [e.id];
          lists := lists[e.id := list];
        }
        pushed := pushed + [e];
        return Merged;
      }
      InsertKeeps(merge, ids, lists, pushed, e);
      InsertReorders(merge, ids, lists, pushed, e);
      if |ids| == size {
        needToFlush := true;
        return Full;
      }
      ids := ids + [e.id];
      lists := lists[e.id := [e]];
      pushed := pushed + [e];
      return Inserted;
    }
  
    /** Empties the pool into one sub-batch for each worker that has something to do. */
    method Flush(route: Id -> nat, workers: nat) returns (batch: Option<seq<SubBatch>>)
      requires Valid() && forall id :: route(id) < workers
      modifies this
      ensures Valid() && ids == [] && !needToFlush && pushed == []
      ensures batch.None? <==> old(ids) == []
      ensures batch.Some? ==> SplitByWorker(batch.value, workers)
      ensures batch.Some? ==> Holds(batch.value, route, merge, old(pushed)) && Covers(batch.value, route, merge, old(pushed))
      ensures batch.Some? ==> Composed(batch.value, route, merge, old(pushed))
    {
      hide ListOf, OfId, KeepsId, Spread, Gathered, Unique, Holds, Covers, SplitByWorker, Composed, Listed, Recent;
      NoneRecent(merge);
      ghost var order, all := ids, lists;
      var events: seq<seq<Event>> := seq(workers, _ => []);
      if ids == [] {
        Emptied(merge, ids, lists, pushed);
        pushed := [];
        return None;
      }
      var i := 0;
      SpreadNone(events, route, ids[..0], lists);
      ListedNone(events, route, merge, pushed, ids[..0]);
      while i < |ids|
        invariant i <= |ids| && ids == order && lists == all && pushed == old(pushed) && |events| == workers && Valid()
        invariant Spread(events, route, ids[..i], lists) && Listed(events, route, merge, pushed, ids[..i])
      {
        var id := ids[i];
        SpreadNext(merge, events, route, ids, i, lists, pushed);
        ListedNext(merge, events, route, ids, i, lists, pushed);
        events := events[route(id) := events[route(id)] + lists[id]];
        i := i + 1;
      }
      var result := [];
      var w := 0;
      GatheredNone(events);
      while w < workers
        invariant w <= workers && Gathered(result, events, w)
        invariant ids == order && lists == all && pushed == old(pushed) && Valid()
      {
        GatherNext(result, events, w);
        if events[w] != [] {
          result := result + [SubBatch(w, events[w])];
        }
        w := w + 1;
      }
      assert ids[..|ids|] == ids;
      GatheredIsBatch(merge, result, events, route, ids, lists, pushed, workers);
      GatheredIsComposed(merge, result, events, route, ids, pushed, workers);
      ids := [];
      lists := map[];
      needToFlush := false;
      pushed := [];
      Emptied(merge, ids, lists, pushed);
      return Some(result);
    }
  }

  // ------------------------------------------------------------------ the source in batches

  function EventsIn(records: seq<Record>): seq<Event> {
    seq(|records|, i requires 0 <= i < |records| => records[i].event)
  }

  /** Changelog records are read in order; one may give several events. */
  ghost predicate Ascending(records: seq<Record>) {
    (forall i, j | 0 <= i < j < |records| :: records[i].index <= records[j].index)
    && forall i | 0 <= i < |records| :: records[i].index > 0
  }

  /** What one call returns: a batch and the index that the source saves for it, the end of the
      source, or its failure. */
  datatype Next = Batch(batch: seq<SubBatch>, index: nat) | End | Failed

  /** After so many pushes, the changelog needs the record no more: its events were all pushed. */
  predicate Finished(records: seq<Record>, pushed: nat, i: nat)
    requires i < |records|
  {
    i < pushed && (pushed < |records| ==> records[i].index < records[pushed].index)
  }

  /** The index saved with a batch covers exactly the records that were pushed entirely. */
  ghost predicate CoversFinished(index: nat, records: seq<Record>, pushed: nat) {
    forall i | 0 <= i < |records| :: records[i].index <= index <==> Finished(records, pushed, i)
  }

  lemma SomethingPushed(merge: Merge, ids: seq<Id>, lists: map<Id, seq<Event>>, pushed: seq<Event>)
    requires Pooled(merge, ids, lists, pushed)
    ensures ids != [] ==> pushed != []
    ensures ids == [] ==> forall id :: ListOf(merge, pushed, id) == []
  {
    if ids != [] {
      NothingListed(merge, pushed, ids[0]);
      assert ids[0] in lists;
    }
  }

  lemma NothingListed(merge: Merge, pushed: seq<Event>, id: Id)
    ensures pushed == [] ==> ListOf(merge, pushed, id) == []
  {
  }

  lemma EventsInNext(records: seq<Record>, from: nat, to: nat)
    requires from <= to < |records|
    ensures EventsIn(records[from..to + 1]) == EventsIn(records[from..to]) + [records[to].event]
  {
  }

  class Deduplicator {
    const source: seq<Record>
    const broken: bool // whether reading past the last record is an error
    const route: Id -> nat
    const workers: nat
    const pool: Pool
    var read: nat                  // how many records were read
    var carried: Option<Record> // read, and not pushed: the pool was full

    ghost predicate Valid()
      reads this, pool
    {
      && pool.Valid() && Ascending(source) && (forall id :: route(id) < workers)
      && read <= |source| && (carried.Some? ==> read > 0 && carried.value == source[read - 1])
    }

    /** How many records were pushed. */
    ghost function Pushed(): nat
      requires Valid()
      reads this, pool
    {
      if carried.Some? then read - 1 else read
    }

    constructor (source: seq<Record>, broken: bool, route: Id -> nat, workers: nat, size: nat, merge: Merge)
      requires size > 0 && KeepsId(merge) && Ascending(source) && forall id :: route(id) < workers
      ensures Valid() && this.source == source && this.broken == broken && this.route == route && this.workers == workers
      ensures fresh(pool) && pool.merge == merge && pool.pushed == [] && !pool.needToFlush && Pushed() == 0
    {
      var p := new Pool(size, merge);
      this.source := source;
      this.broken := broken;
      this.route := route;
      this.workers := workers;
      pool := p;
      read := 0;
      carried := None;
    }

    /** Pushes the event carried over from the last call, then those of the source, until the
        pool is full or the source ends; then flushes the pool. */
    method NextBatch(ghost from: nat) returns (r: Next)
      requires Valid() && from == Pushed() && pool.pushed == [] && !pool.needToFlush
      modifies this, pool
      ensures Valid() && from <= Pushed()
      ensures r.Failed? ==> broken && Pushed() == |source|
      ensures !r.Failed? ==> pool.pushed == [] && !pool.needToFlush
      ensures r.End? ==> Pushed() == |source| && !broken
      ensures r.End? ==> forall id :: ListOf(pool.merge, EventsIn(source[from..]), id) == []
      ensures r.Batch? ==> from < Pushed() && SplitByWorker(r.batch, workers) && CoversFinished(r.index, source, Pushed())
      ensures r.Batch? ==> Holds(r.batch, route, pool.merge, EventsIn(source[from..Pushed()]))
      ensures r.Batch? ==> Covers(r.batch, route, pool.merge, EventsIn(source[from..Pushed()]))
      ensures r.Batch? ==> Composed(r.batch, route, pool.merge, EventsIn(source[from..Pushed()]))
    {
      hide ListOf, Pooled, Holds, Covers, Composed, SplitByWorker, KeepsId, EventsIn, Recent;
      var exhausted := false;
      NoEventsIn(source, from);
      while true
        invariant Valid() && from <= Pushed() && !exhausted && !pool.needToFlush
        invariant pool.pushed == EventsIn(source[from..Pushed()])
        decreases |source| - Pushed()
      {
        var record;
        if carried.Some? {
          record := carried.value;
          carried := None;
        } else {
          if read == |source| {
            if broken {
              return Failed;
            }
            exhausted := true;
            break;
          }
          record := source[read];
          read := read + 1;
        }
        EventsInNext(source, from, read - 1);
        var pushed := pool.PushEvent(record.event);
        assert !pushed.AlreadyFull?; // the program would abort
        if pushed.Full? {
          carried := Some(record);
          break;
        }
      }
      ghost var to := Pushed();
      SomethingPushed(pool.merge, pool.ids, pool.lists, pool.pushed);
      NoEventsIn(source, from);
      var batch := pool.Flush(route, workers);
      if batch.None? {
        assert source[from..to] == source[from..];
        return End;
      }
      var last := if read == 0 then 0 else source[read - 1].index;
      return Batch(batch.value, if exhausted then last else last - 1);
    }
  }

  lemma NoEventsIn(records: seq<Record>, from: nat)
    requires from <= |records|
    ensures EventsIn(records[from..from]) == []
  {
  }
}
