/** From the records of a changelog to acknowledged batches: what the deduplicator makes of the
    source is fit for the pipeline, and nothing is forgotten before it was processed.
 */
module Changelog {
  import opened Fsevent
  import opened Pipeline
  import opened PipelineOrder
  import opened PipelineAcks
  import opened Deduplicator
  import Acks

  /** The first `n` batches are made of the records between consecutive cuts. */
  ghost predicate Cut(
    batches: seq<seq<SubBatch>>, indexes: seq<nat>, cuts: seq<nat>, source: seq<Record>, route: Id -> nat, workers: nat, merge: Merge)
  {
    && |indexes| == |batches| && |cuts| == |batches| + 1 && cuts[0] == 0
    && (forall b | 0 <= b < |cuts| :: cuts[b] <= |source|)
    && (forall b | 0 <= b < |batches| :: CutBetween(batches[b], indexes[b], cuts, b, source, route, workers, merge))
  }

  ghost predicate CutBetween(
    batch: seq<SubBatch>, index: nat, cuts: seq<nat>, b: nat, source: seq<Record>, route: Id -> nat, workers: nat, merge: Merge)
  {
    b + 1 < |cuts| && cuts[b] < cuts[b + 1] && CutAt(batch, index, cuts[b], cuts[b + 1], source, route, workers, merge)
  }

  ghost predicate CutAt(
    batch: seq<SubBatch>, index: nat, from: nat, to: nat, source: seq<Record>, route: Id -> nat, workers: nat, merge: Merge)
  {
    && from <= to <= |source| && SplitByWorker(batch, workers) && CoversFinished(index, source, to)
    && Holds(batch, route, merge, EventsIn(source[from..to])) && Covers(batch, route, merge, EventsIn(source[from..to]))
    && Composed(batch, route, merge, EventsIn(source[from..to]))
  }

  lemma CutMore(
    batches: seq<seq<SubBatch>>, indexes: seq<nat>, cuts: seq<nat>, source: seq<Record>, route: Id -> nat, workers: nat, merge: Merge,
    batch: seq<SubBatch>, index: nat, to: nat)
    requires Cut(batches, indexes, cuts, source, route, workers, merge) && cuts[|batches|] < to <= |source|
    requires CutAt(batch, index, cuts[|batches|], to, source, route, workers, merge)
    ensures Cut(batches + [batch], indexes + [index], cuts + [to], source, route, workers, merge)
  {
    hide CutAt;
    var batches', indexes', cuts' := batches + [batch], indexes + [index], cuts + [to];
    forall b | 0 <= b < |batches'|
      ensures CutBetween(batches'[b], indexes'[b], cuts', b, source, route, workers, merge)
    {
      if b < |batches| {
        assert CutBetween(batches[b], indexes[b], cuts, b, source, route, workers, merge);
      }
    }
  }

  /** Everything the deduplicator returns before the source ends. It fails if the source does. */
  method Drain(source: seq<Record>, broken: bool, route: Id -> nat, workers: nat, size: nat, merge: Merge)
    returns (ok: bool, c: Config, ghost cuts: seq<nat>)
    requires size > 0 && KeepsId(merge) && Ascending(source) && forall id :: route(id) < workers
    ensures ok <==> !broken
    ensures ok ==> c.workers == workers && c.dedup && Cut(c.batches, c.indexes, cuts, source, route, workers, merge)
    ensures ok ==> forall id :: ListOf(merge, EventsIn(source[cuts[|c.batches|]..]), id) == []
  {
    hide ListOf, EventsIn, Cut, CutAt, Holds, Covers, Composed, SplitByWorker, CoversFinished;
    var d := new Deduplicator(source, broken, route, workers, size, merge);
    var batches: seq<seq<SubBatch>>, indexes: seq<nat> := [], [];
    cuts := [0];
    NoCuts(source, route, workers, merge);
    while true
      invariant d.Valid() && fresh(d) && fresh(d.pool) && d.source == source && d.broken == broken && d.route == route
      invariant d.workers == workers && d.pool.merge == merge && d.pool.pushed == [] && !d.pool.needToFlush
      invariant Cut(batches, indexes, cuts, source, route, workers, merge) && |cuts| == |batches| + 1
      invariant cuts[|batches|] == d.Pushed()
      decreases |source| - d.Pushed()
    {
      ghost var from := d.Pushed();
      var r := d.NextBatch(from);
      if r.Failed? {
        return false, Config(workers, [], [], true, 0), [];
      }
      if r.End? {
        return true, Config(workers, batches, indexes, true, 0), cuts;
      }
      CutHere(r.batch, r.index, from, d.Pushed(), source, route, workers, merge);
      CutMore(batches, indexes, cuts, source, route, workers, merge, r.batch, r.index, d.Pushed());
      batches, indexes, cuts := batches + [r.batch], indexes + [r.index], cuts + [d.Pushed()];
    }
  }

  lemma NoCuts(source: seq<Record>, route: Id -> nat, workers: nat, merge: Merge)
    ensures Cut([], [], [0], source, route, workers, merge)
  {
  }

  lemma CutHere(
    batch: seq<SubBatch>, index: nat, from: nat, to: nat, source: seq<Record>, route: Id -> nat, workers: nat, merge: Merge)
    requires from <= to <= |source| && SplitByWorker(batch, workers) && CoversFinished(index, source, to)
    requires Holds(batch, route, merge, EventsIn(source[from..to])) && Covers(batch, route, merge, EventsIn(source[from..to]))
    requires Composed(batch, route, merge, EventsIn(source[from..to]))
    ensures CutAt(batch, index, from, to, source, route, workers, merge)
  {
  }

  // ------------------------------------------------------------------ fit for the pipeline

  /** Batches are split by worker, and events are routed by identifier. */
  lemma CutIsSplit(c: Config, cuts: seq<nat>, source: seq<Record>, route: Id -> nat, merge: Merge)
    requires Cut(c.batches, c.indexes, cuts, source, route, c.workers, merge)
    ensures Split(c) && Routed(c, route)
  {
    hide OfId, ListOf, EventsIn, Covers, CoversFinished, Composed;
    forall b | 0 <= b < |c.batches| ensures SplitByWorker(c.batches[b], c.workers) {
      assert CutBetween(c.batches[b], c.indexes[b], cuts, b, source, route, c.workers, merge);
    }
    forall n, e | InConfig(c, n) && e in EventsOf(c, n) ensures route(e.id) == WorkerOf(c, n) {
      var b := n.batch;
      assert CutBetween(c.batches[b], c.indexes[b], cuts, b, source, route, c.workers, merge);
      assert HoldsAt(c.batches[b][n.sub], route, merge, EventsIn(source[cuts[b]..cuts[b + 1]]), e.id);
      FoundById(EventsOf(c, n), e);
    }
  }

  /** What the records between the cuts leave of an identifier, in order. */
  ghost function MergedUpTo(merge: Merge, source: seq<Record>, cuts: seq<nat>, id: Id, b: nat): seq<Event>
    requires b < |cuts|
  {
    if b == 0 then [] else MergedUpTo(merge, source, cuts, id, b - 1) + ListOf(merge, EventsIn(Between(source, cuts, b - 1)), id)
  }

  function Between(source: seq<Record>, cuts: seq<nat>, b: nat): seq<Record>
    requires b + 1 < |cuts|
  {
    if cuts[b] <= cuts[b + 1] <= |source| then source[cuts[b]..cuts[b + 1]] else []
  }

  ghost predicate HasWorker(batch: seq<SubBatch>, k: nat, w: nat)
    requires k <= |batch|
  {
    exists i | 0 <= i < k :: batch[i].worker == w
  }

  lemma {:induction false} SubBatchEvents(c: Config, cuts: seq<nat>, source: seq<Record>, route: Id -> nat, merge: Merge, id: Id, b: nat, k: nat)
    requires b < |c.batches| && k <= |c.batches[b]| && |cuts| == |c.batches| + 1 && |c.indexes| == |c.batches|
    requires CutAt(c.batches[b], c.indexes[b], cuts[b], cuts[b + 1], source, route, c.workers, merge)
    ensures OfId(Events(c, b, k), id) ==
            OfId(Events(c, b, 0), id)
            + if HasWorker(c.batches[b], k, route(id)) then ListOf(merge, EventsIn(source[cuts[b]..cuts[b + 1]]), id) else []
  {
    hide OfId, ListOf, EventsIn, Covers, CoversFinished, Composed;
    if k > 0 {
      SubBatchEvents(c, cuts, source, route, merge, id, b, k - 1);
      var sub := c.batches[b][k - 1];
      OfIdConcat(Events(c, b, k - 1), sub.events, id);
      assert HoldsAt(sub, route, merge, EventsIn(source[cuts[b]..cuts[b + 1]]), id);
      if sub.worker == route(id) {
        assert HasWorker(c.batches[b], k, route(id)) && !HasWorker(c.batches[b], k - 1, route(id));
      } else {
        assert HasWorker(c.batches[b], k, route(id)) == HasWorker(c.batches[b], k - 1, route(id));
      }
    }
  }

  lemma WholeBatch(
    batch: seq<SubBatch>, index: nat, from: nat, to: nat, source: seq<Record>, route: Id -> nat, workers: nat, merge: Merge, id: Id)
    requires CutAt(batch, index, from, to, source, route, workers, merge)
    ensures from <= to <= |source|
    ensures !HasWorker(batch, |batch|, route(id)) ==> ListOf(merge, EventsIn(source[from..to]), id) == []
  {
    hide ListOf, EventsIn, CoversFinished, Holds, SplitByWorker, Composed;
  }

  /** One batch adds what merging left of its stretch. */
  lemma BatchEvents(c: Config, cuts: seq<nat>, source: seq<Record>, route: Id -> nat, merge: Merge, id: Id, b: nat)
    requires Cut(c.batches, c.indexes, cuts, source, route, c.workers, merge) && b < |c.batches|
    ensures OfId(Events(c, b + 1, 0), id) == OfId(Events(c, b, 0), id) + ListOf(merge, EventsIn(Between(source, cuts, b)), id)
  {
    hide ListOf, EventsIn, CutAt, HasWorker, OfId;
    assert CutBetween(c.batches[b], c.indexes[b], cuts, b, source, route, c.workers, merge);
    SubBatchEvents(c, cuts, source, route, merge, id, b, |c.batches[b]|);
    WholeBatch(c.batches[b], c.indexes[b], cuts[b], cuts[b + 1], source, route, c.workers, merge, id);
    assert Events(c, b + 1, 0) == Events(c, b, |c.batches[b]|);
  }

  /** The events of an identifier in the pipeline are those that the deduplicator left of it,
      batch by batch. */
  lemma {:induction false} MergedEvents(c: Config, cuts: seq<nat>, source: seq<Record>, route: Id -> nat, merge: Merge, id: Id, b: nat)
    requires Cut(c.batches, c.indexes, cuts, source, route, c.workers, merge) && b <= |c.batches|
    ensures OfId(Events(c, b, 0), id) == MergedUpTo(merge, source, cuts, id, b)
  {
    hide ListOf, EventsIn, CutBetween, OfId, Between;
    if b == 0 {
      NoEvents(c, id);
    } else {
      MergedEvents(c, cuts, source, route, merge, id, b - 1);
      BatchEvents(c, cuts, source, route, merge, id, b - 1);
    }
  }

  // ------------------------------------------------------------------ nothing is forgotten too soon

  /** Where batches are cleared in order, when the changelog forgets up to an index, every batch
      that holds a record up to it was processed, and the record is in one of the batches. */
  lemma ForgottenIsProcessed(
    c: Config, cuts: seq<nat>, source: seq<Record>, route: Id -> nat, merge: Merge, s: State, e: Acks.Saved, i: nat)
    requires Cut(c.batches, c.indexes, cuts, source, route, c.workers, merge) && c.dedup
    requires Reachable(c, s) && ClearedInOrder(c, s) && e in s.cleared && i < |source| && source[i].index <= e.index
    ensures exists b: nat | b < |c.batches| :: InBatch(cuts, b, i) && forall k | 0 <= k < |c.batches[b]| :: Done(c, s, Node(b, k))
  {
    hide Holds, Covers, Composed, SplitByWorker, ListOf, EventsIn;
    CutIsSplit(c, cuts, source, route, merge);
    ReachableAcks(c, s);
    assert SavedRight(c, s, e);
    var d := e.id - 1;
    assert CutBetween(c.batches[d], c.indexes[d], cuts, d, source, route, c.workers, merge);
    var b := Locate(cuts, i, d);
    assert forall k | 0 <= k < |c.batches[b]| :: InConfig(c, Node(b, k)) && Node(b, k).batch < e.id;
  }

  lemma {:induction false} CutsAscend(c: Config, cuts: seq<nat>, source: seq<Record>, route: Id -> nat, merge: Merge, a: nat, b: nat)
    requires Cut(c.batches, c.indexes, cuts, source, route, c.workers, merge) && a <= b <= |c.batches|
    ensures cuts[a] <= cuts[b] <= |source|
    decreases b - a
  {
    hide CutAt;
    if a < b {
      assert CutBetween(c.batches[a], c.indexes[a], cuts, a, source, route, c.workers, merge);
      CutsAscend(c, cuts, source, route, merge, a + 1, b);
    }
  }

  /** When the last batch is cleared, the changelog forgets exactly the records whose events were
      all in the batches. */
  lemma FinishedIsForgotten(c: Config, cuts: seq<nat>, source: seq<Record>, route: Id -> nat, merge: Merge, s: State, i: nat)
    requires Cut(c.batches, c.indexes, cuts, source, route, c.workers, merge) && c.dedup && Ascending(source)
    requires Reachable(c, s) && i < |source| && (c.batches != [] ==> Cleared(s, |c.batches|))
    ensures (exists e | e in s.cleared :: source[i].index <= e.index) <==> Finished(source, cuts[|c.batches|], i)
  {
    hide Holds, Covers, Composed, SplitByWorker, ListOf, EventsIn;
    var n := |c.batches|;
    CutIsSplit(c, cuts, source, route, merge);
    ReachableAcks(c, s);
    forall e | e in s.cleared && source[i].index <= e.index ensures Finished(source, cuts[n], i) {
      assert SavedRight(c, s, e);
      assert CutBetween(c.batches[e.id - 1], c.indexes[e.id - 1], cuts, e.id - 1, source, route, c.workers, merge);
      CutsAscend(c, cuts, source, route, merge, e.id, n);
    }
    if n > 0 {
      var e :| e in s.cleared && e.id == n;
      assert SavedRight(c, s, e);
      assert CutBetween(c.batches[n - 1], c.indexes[n - 1], cuts, n - 1, source, route, c.workers, merge);
    }
  }

  /** A run that returns 0 without a worker giving up forgets exactly these records. */
  lemma RunForgets(c: Config, cuts: seq<nat>, source: seq<Record>, route: Id -> nat, merge: Merge, s: State, i: nat)
    requires Cut(c.batches, c.indexes, cuts, source, route, c.workers, merge) && c.dedup && Ascending(source)
    requires Reachable(c, s) && Succeeded(s) && NoneLost(s) && i < |source|
    ensures (exists e | e in s.cleared :: source[i].index <= e.index) <==> Finished(source, cuts[|c.batches|], i)
  {
    hide Cut;
    CutIsSplit(c, cuts, source, route, merge);
    CutHasIndexes(c, cuts, source, route, merge);
    AllCleared(c, s);
    FinishedIsForgotten(c, cuts, source, route, merge, s, i);
  }

  lemma CutHasIndexes(c: Config, cuts: seq<nat>, source: seq<Record>, route: Id -> nat, merge: Merge)
    requires Cut(c.batches, c.indexes, cuts, source, route, c.workers, merge)
    ensures |c.indexes| == |c.batches| && |cuts| == |c.batches| + 1
  {
  }

  predicate InBatch(cuts: seq<nat>, b: nat, i: nat) {
    b + 1 < |cuts| && cuts[b] <= i < cuts[b + 1]
  }

  lemma {:induction false} Locate(cuts: seq<nat>, i: nat, d: nat) returns (b: nat)
    requires d + 1 < |cuts| && cuts[0] == 0 && i < cuts[d + 1]
    ensures b <= d && InBatch(cuts, b, i)
  {
    b := d;
    while i < cuts[b]
      invariant b <= d && i < cuts[b + 1]
      decreases b
    {
      b := b - 1;
    }
  }
}
