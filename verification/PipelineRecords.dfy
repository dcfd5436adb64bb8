/** Acknowledgements without deduplication: every event is a batch, and the events of one
    changelog record share an element of the source's list.

    The changelog is to forget a record only after all its events, and those of the records
    before it, were processed.
 */
module PipelineRecords {
  import opened Wrappers
  import opened Fsevent
  import opened Pipeline
  import opened PipelineOrder
  import opened PipelineAcks
  import Acks

  /** Batches of one event each; the records they come from are read in order. */
  ghost predicate Recorded(c: Config) {
    && !c.dedup && Split(c) && (forall b: nat | b < |c.batches| :: |c.batches[b]| == 1)
    && (forall a, b | 0 <= a < b < |c.indexes| :: c.indexes[a] <= c.indexes[b])
    && (c.indexes != [] ==> c.start <= c.indexes[0])
  }

  /** What the source yields without deduplication is of this kind. */
  lemma SinglesAreRecorded(source: seq<Event>, route: seq<byte> -> nat, workers: nat, indexes: seq<nat>, start: nat)
    requires |indexes| == |source| && forall e | e in source :: route(e.id) < workers
    requires forall a, b | 0 <= a < b < |indexes| :: indexes[a] <= indexes[b]
    requires indexes != [] ==> start <= indexes[0]
    ensures Recorded(Config(workers, Singles(source, route), indexes, false, start))
  {
    WithoutDeduplication(source, route, workers, indexes, start);
  }

  predicate Processed(c: Config, s: State, b: nat) {
    b < |c.batches| && |c.batches[b]| == 1 && Done(c, s, Node(b, 0))
  }

  /** All events of a record were processed. */
  ghost predicate Complete(c: Config, s: State, record: nat)
    requires |c.indexes| == |c.batches|
  {
    forall b: nat | b < |c.batches| && c.indexes[b] == record :: Processed(c, s, b)
  }

  /** The changelog forgot nothing that was not processed. */
  ghost predicate ForgottenProcessed(c: Config, s: State)
    requires |c.indexes| == |c.batches|
  {
    forall e, b: nat | e in s.cleared && b < |c.batches| && c.indexes[b] <= e.index :: Processed(c, s, b)
  }

  /** ... no record counts as done before it is, and no freed element was written to. */
  ghost predicate RecordsRight(c: Config, s: State)
    requires |c.indexes| == |c.batches|
  {
    !s.freed && ForgottenProcessed(c, s) && forall e | e in s.saved && e.required == 0 :: Complete(c, s, e.index)
  }

  // ------------------------------------------------------------------ steps that come too early

  /** The last event of its record that was saved so far. */
  predicate Latest(c: Config, s: State, b: nat)
    requires |c.indexes| == |c.batches|
  {
    b < Obtained(s) && b < |c.batches| && (b + 1 == Obtained(s) || b + 1 == |c.batches| || c.indexes[b + 1] != c.indexes[b])
  }

  /** An event is acknowledged that is the last one saved of its record, while another event of the
      record was not processed, or not even saved. */
  ghost predicate Premature(c: Config, s: State, step: Step)
    requires |c.indexes| == |c.batches|
  {
    && step.Ack? && step.w < |s.workers| && s.workers[step.w].stage.Processed?
    && var b := s.workers[step.w].stage.node.batch;
       && Latest(c, s, b)
       && exists a: nat | a < |c.batches| && a != b :: c.indexes[a] == c.indexes[b] && !Processed(c, s, a)
  }

  /** The first event is of the record at which reading started: there is no element to share. */
  predicate Unprepared(c: Config, s: State, step: Step) {
    step.Take? && s.batch == 0 && 0 < |c.indexes| && Shared(c, 0)
  }

  ghost predicate Hasty(c: Config, s: State, step: Step)
    requires |c.indexes| == |c.batches|
  {
    Premature(c, s, step) || Unprepared(c, s, step)
  }

  // ------------------------------------------------------------------ the invariant

  ghost predicate ElementRight(c: Config, s: State, e: Acks.Saved)
    requires |c.indexes| == |c.batches|
  {
    && 1 <= e.id <= |c.batches| && Latest(c, s, e.id - 1) && e.index == c.indexes[e.id - 1]
    && e.required == if Processed(c, s, e.id - 1) then 0 else 1
  }

  ghost predicate HasElement(s: State, record: nat) {
    Lists(s.saved, record) || Lists(s.cleared, record)
  }

  ghost predicate Lists(list: seq<Acks.Saved>, record: nat) {
    exists i | 0 <= i < |list| :: list[i].index == record
  }

  lemma ListsMore(list: seq<Acks.Saved>, e: Acks.Saved, record: nat)
    ensures Lists(list + [e], record) <==> Lists(list, record) || e.index == record
  {
    var more := list + [e];
    if Lists(list, record) {
      var i :| 0 <= i < |list| && list[i].index == record;
      assert more[i].index == record;
    }
    assert more[|list|] == e;
  }

  /** Lists that agree on the records. */
  lemma ListsSame(list: seq<Acks.Saved>, list': seq<Acks.Saved>, record: nat)
    requires |list| == |list'| && forall i | 0 <= i < |list| :: list'[i].index == list[i].index
    ensures Lists(list, record) <==> Lists(list', record)
  {
    if Lists(list, record) {
      var i :| 0 <= i < |list| && list[i].index == record;
      assert list'[i].index == record;
    }
  }

  /** When the last event of a record is done, so are the others. */
  ghost predicate LastIsLast(c: Config, s: State)
    requires |c.indexes| == |c.batches|
  {
    forall b: nat | Latest(c, s, b) && Processed(c, s, b) :: Complete(c, s, c.indexes[b])
  }

  ghost predicate RecordInv(c: Config, s: State)
    requires |c.indexes| == |c.batches|
  {
    && !s.freed && Acks.Ordered(s.saved) && ForgottenProcessed(c, s) && LastIsLast(c, s)
    && (forall e | e in s.saved :: ElementRight(c, s, e))
    && (forall b: nat | b < Obtained(s) && b < |c.batches| :: HasElement(s, c.indexes[b]))
  }

  lemma InvIsRight(c: Config, s: State)
    requires Recorded(c) && RecordInv(c, s)
    ensures RecordsRight(c, s)
  {
    forall e | e in s.saved && e.required == 0 ensures Complete(c, s, e.index) {
      assert ElementRight(c, s, e);
    }
  }

  lemma StartInv(c: Config)
    requires Recorded(c)
    ensures RecordInv(c, Start(c))
  {
  }

  /** What was not handed out was not processed. */
  lemma UnsavedIsPending(c: Config, s: State, b: nat)
    requires Recorded(c) && OrderInv(c, s) && Obtained(s) <= b < |c.batches|
    ensures !Processed(c, s, b)
  {
    hide Assigned;
    var w := c.batches[b][0].worker;
    assert WorkerInv(c, s, w);
    AssignedIs(c, w, s.batch, s.sub);
    var x := s.workers[w];
    forall k | 0 <= k < |x.done| ensures x.done[k] != Node(b, 0) {
      assert Trace(x)[k] == x.done[k] && x.done[k] in Trace(x);
    }
  }

  // ------------------------------------------------------------------ saving an event

  lemma SameProcessed(c: Config, s: State, step: Step, b: nat)
    requires Enabled(c, s, step) && !step.Ack?
    ensures Processed(c, Next(c, s, step), b) <==> Processed(c, s, b)
  {
    var t := Next(c, s, step);
    assert |t.workers| == |s.workers|;
    assert forall v | 0 <= v < |s.workers| :: t.workers[v].done == s.workers[v].done;
  }

  lemma OtherStepFacts(c: Config, s: State, step: Step)
    requires Enabled(c, s, step) && !step.Ack? && !step.Take?
    ensures var t := Next(c, s, step);
            t.saved == s.saved && t.cleared == s.cleared && Obtained(t) == Obtained(s) && !t.freed
  {
  }

  lemma OtherStepInv(c: Config, s: State, step: Step)
    requires Recorded(c) && RecordInv(c, s) && Enabled(c, s, step) && !step.Ack? && !step.Take?
    ensures RecordInv(c, Next(c, s, step))
  {
    hide Next, Enabled, Processed, Lists;
    var t := Next(c, s, step);
    OtherStepFacts(c, s, step);
    forall b: nat ensures Processed(c, t, b) <==> Processed(c, s, b) {
      SameProcessed(c, s, step, b);
    }
    forall e | e in t.saved ensures ElementRight(c, t, e) {
      assert ElementRight(c, s, e);
    }
    forall b: nat | b < Obtained(t) && b < |c.batches| ensures HasElement(t, c.indexes[b]) {
      assert HasElement(s, c.indexes[b]);
    }
    assert LastIsLast(c, t) by {
      forall b: nat | Latest(c, t, b) && Processed(c, t, b) ensures Complete(c, t, c.indexes[b]) {
        assert Latest(c, s, b) && Complete(c, s, c.indexes[b]);
      }
    }
  }

  lemma ForgottenKept(c: Config, s: State, t: State)
    requires |c.indexes| == |c.batches| && t.cleared == s.cleared && ForgottenProcessed(c, s)
    requires forall b: nat | Processed(c, s, b) :: Processed(c, t, b)
    ensures ForgottenProcessed(c, t)
  {
    hide Processed;
  }

  /** A new event takes over from the one before it, of its own record or not. */
  lemma TakeLatest(c: Config, s: State, t: State)
    requires Recorded(c) && Obtained(t) == Obtained(s) + 1 && Obtained(s) < |c.batches|
    requires forall b: nat :: Processed(c, t, b) <==> Processed(c, s, b)
    requires !Processed(c, s, Obtained(s)) && LastIsLast(c, s)
    ensures LastIsLast(c, t)
  {
    hide Processed;
    forall b: nat | Latest(c, t, b) && Processed(c, t, b) ensures Complete(c, t, c.indexes[b]) {
      assert Latest(c, s, b);
      assert Complete(c, s, c.indexes[b]);
    }
  }

  lemma TakeNewInv(c: Config, s: State)
    requires Recorded(c) && OrderInv(c, s) && RecordInv(c, s) && Enabled(c, s, Take) && !Shared(c, s.batch)
    ensures RecordInv(c, Next(c, s, Take))
  {
    hide Assigned, OrderInv, Next, Processed, Enabled, RecordInv;
    TakeFacts(c, s);
    SaveKeeps(c, s, Next(c, s, Take));
  }

  /** The list grew by an element for the new event. */
  lemma SaveKeeps(c: Config, s: State, t: State)
    requires Recorded(c) && RecordInv(c, s) && Obtained(s) < |c.batches| && !Processed(c, s, Obtained(s))
    requires forall b: nat :: Processed(c, t, b) <==> Processed(c, s, b)
    requires Obtained(t) == Obtained(s) + 1 && !t.freed && t.cleared == s.cleared
    requires !Shared(c, Obtained(s))
    requires t.saved == s.saved + [Acks.Saved(Obtained(s) + 1, c.indexes[Obtained(s)], 1)]
    ensures RecordInv(c, t)
  {
    hide Processed, Lists, LastIsLast, ForgottenProcessed;
    var b := Obtained(s);
    TakeLatest(c, s, t);
    ForgottenKept(c, s, t);
    var e := t.saved[|s.saved|];
    forall f | f in s.saved ensures ElementRight(c, t, f) && f.id < e.id {
      assert ElementRight(c, s, f);
    }
    assert forall i | 0 <= i < |s.saved| :: s.saved[i] in s.saved;
    assert ElementRight(c, t, e) && e in t.saved;
    forall a: nat | a < Obtained(t) && a < |c.batches| ensures HasElement(t, c.indexes[a]) {
      ListsMore(s.saved, e, c.indexes[a]);
      assert a < b ==> HasElement(s, c.indexes[a]);
    }
  }

  lemma TakeFacts(c: Config, s: State)
    requires Recorded(c) && OrderInv(c, s) && Enabled(c, s, Take)
    ensures Obtained(s) == s.batch < |c.batches| && !Processed(c, s, s.batch)
    ensures forall b: nat :: Processed(c, Next(c, s, Take), b) <==> Processed(c, s, b)
    ensures var t := Next(c, s, Take);
            && t.cleared == s.cleared
            && (!Shared(c, s.batch) ==>
                  && Obtained(t) == Obtained(s) + 1 && !t.freed
                  && t.saved == s.saved + [Acks.Saved(s.batch + 1, c.indexes[s.batch], 1)])
            && (Shared(c, s.batch) && Acks.Current(s.saved, s.batch + 1) ==>
                  && Obtained(t) == Obtained(s) + 1 && !t.freed
                  && t.saved == Acks.SavedEvent(s.saved, s.batch + 1, c.indexes[s.batch], true))
            && (Shared(c, s.batch) && !Acks.Current(s.saved, s.batch + 1) ==> t.freed)
  {
    UnsavedIsPending(c, s, s.batch);
    forall b: nat ensures Processed(c, Next(c, s, Take), b) <==> Processed(c, s, b) {
      SameProcessed(c, s, Take, b);
    }
  }

  lemma LatestUnique(c: Config, s: State, a: nat, b: nat)
    requires Recorded(c) && Latest(c, s, a) && Latest(c, s, b) && c.indexes[a] == c.indexes[b]
    ensures a == b
  {
  }

  /** The last saved event of a record, not processed yet, has an element of its own number. */
  lemma ElementOf(c: Config, s: State, b: nat) returns (i: nat)
    requires Recorded(c) && RecordInv(c, s) && Latest(c, s, b) && !Processed(c, s, b)
    ensures i < |s.saved| && s.saved[i] == Acks.Saved(b + 1, c.indexes[b], 1)
  {
    hide Processed;
    assert HasElement(s, c.indexes[b]);
    forall k | 0 <= k < |s.cleared| ensures s.cleared[k].index != c.indexes[b] {
      assert s.cleared[k] in s.cleared;
    }
    i :| 0 <= i < |s.saved| && s.saved[i].index == c.indexes[b];
    assert s.saved[i] in s.saved && ElementRight(c, s, s.saved[i]);
    LatestUnique(c, s, s.saved[i].id - 1, b);
  }

  /** The element of the event before is there: its record is not complete. */
  lemma SharedIsCurrent(c: Config, s: State)
    requires Recorded(c) && OrderInv(c, s) && RecordInv(c, s) && Enabled(c, s, Take) && Shared(c, s.batch) && s.batch > 0
    ensures Acks.Current(s.saved, s.batch + 1) && !Processed(c, s, s.batch - 1)
  {
    hide Assigned, OrderInv, Next, Processed;
    var b := s.batch - 1;
    TakeFacts(c, s);
    assert Latest(c, s, b);
    assert !Complete(c, s, c.indexes[b]);
    var i := ElementOf(c, s, b);
    var last := s.saved[|s.saved| - 1];
    assert last in s.saved && ElementRight(c, s, last);
  }

  lemma TakeSharedInv(c: Config, s: State)
    requires Recorded(c) && OrderInv(c, s) && RecordInv(c, s) && Enabled(c, s, Take) && Shared(c, s.batch) && s.batch > 0
    ensures RecordInv(c, Next(c, s, Take))
  {
    hide Assigned, OrderInv, Next, Processed, Enabled, RecordInv;
    SharedIsCurrent(c, s);
    TakeFacts(c, s);
    ShareKeeps(c, s, Next(c, s, Take));
  }

  /** The last element of the list stands for the new event as well. */
  lemma ShareKeeps(c: Config, s: State, t: State)
    requires Recorded(c) && RecordInv(c, s) && 0 < Obtained(s) < |c.batches| && !Processed(c, s, Obtained(s))
    requires forall b: nat :: Processed(c, t, b) <==> Processed(c, s, b)
    requires Obtained(t) == Obtained(s) + 1 && !t.freed && t.cleared == s.cleared
    requires Shared(c, Obtained(s)) && Acks.Current(s.saved, Obtained(s) + 1) && !Processed(c, s, Obtained(s) - 1)
    requires t.saved == Acks.SavedEvent(s.saved, Obtained(s) + 1, c.indexes[Obtained(s)], true)
    ensures RecordInv(c, t)
  {
    hide Processed, Lists, LastIsLast, ForgottenProcessed;
    var n := |s.saved| - 1;
    TakeLatest(c, s, t);
    ForgottenKept(c, s, t);
    forall i | 0 <= i < |t.saved| ensures ElementRight(c, t, t.saved[i]) {
      assert s.saved[i] in s.saved && ElementRight(c, s, s.saved[i]);
      assert i < n ==> s.saved[i].id < s.saved[n].id;
    }
    forall a: nat | a < Obtained(t) && a < |c.batches| ensures HasElement(t, c.indexes[a]) {
      var a' := if a == Obtained(s) then a - 1 else a;
      assert HasElement(s, c.indexes[a']);
      ListsSame(s.saved, t.saved, c.indexes[a]);
    }
  }

  // ------------------------------------------------------------------ acknowledging an event

  lemma ProcessedAfterAck(c: Config, s: State, w: nat, b: nat)
    requires Recorded(c) && OrderInv(c, s) && Enabled(c, s, Ack(w))
    ensures var a := s.workers[w].stage.node.batch;
            && a < Obtained(s) && a < |c.batches| && !Processed(c, s, a) && s.workers[w].stage.node == Node(a, 0)
            && (Processed(c, Next(c, s, Ack(w)), b) <==> Processed(c, s, b) || b == a)
  {
    hide Assigned;
    InHandIsPending(c, s, w);
    if b < |c.batches| {
      PendingAfterAck(c, s, w, b);
    }
  }

  /** The elements after an acknowledgement, before any is cleared. */
  lemma LoweredElement(c: Config, s: State, t: State, a: nat, e: Acks.Saved)
    requires Recorded(c) && ElementRight(c, s, e) && Obtained(t) == Obtained(s) && a < |c.batches| && !Processed(c, s, a)
    requires forall b: nat :: Processed(c, t, b) <==> Processed(c, s, b) || b == a
    ensures ElementRight(c, t, Acks.Lowered(e, a + 1)) && Acks.Lowered(e, a + 1).index == e.index
  {
    hide Processed;
  }

  ghost predicate OthersProcessed(c: Config, s: State, a: nat)
    requires |c.indexes| == |c.batches| && a < |c.indexes|
  {
    forall b: nat | b < |c.batches| && b != a && c.indexes[b] == c.indexes[a] :: Processed(c, s, b)
  }

  /** An acknowledgement that does not come too early leaves the last event of a record last. */
  lemma AckLatest(c: Config, s: State, t: State, a: nat)
    requires Recorded(c) && LastIsLast(c, s) && Obtained(t) == Obtained(s) && a < |c.batches|
    requires forall b: nat :: Processed(c, t, b) <==> Processed(c, s, b) || b == a
    requires Latest(c, s, a) ==> OthersProcessed(c, s, a)
    ensures LastIsLast(c, t)
  {
    hide Processed;
    forall b: nat | Latest(c, t, b) && Processed(c, t, b) ensures Complete(c, t, c.indexes[b]) {
      assert Latest(c, s, b);
      if b != a {
        assert Complete(c, s, c.indexes[b]);
      }
    }
  }

  /** The elements of `s` as they are right in `t`. */
  ghost predicate Elements(c: Config, s: State, t: State, less: seq<Acks.Saved>)
    requires |c.indexes| == |c.batches|
  {
    |less| == |s.saved| && forall i | 0 <= i < |less| ::
      less[i].id == s.saved[i].id && less[i].index == s.saved[i].index && ElementRight(c, t, less[i])
  }

  /** A cleared element and everything before it. */
  lemma ClearedPrefix(c: Config, s: State, t: State, less: seq<Acks.Saved>, n: nat, k: nat, b: nat)
    requires Recorded(c) && RecordInv(c, s) && LastIsLast(c, t) && Obtained(t) == Obtained(s)
    requires forall x: nat | Processed(c, s, x) :: Processed(c, t, x)
    requires Elements(c, s, t, less)
    requires k < n <= |less| && (forall i | 0 <= i < n :: less[i].required == 0)
    requires b < |c.batches| && c.indexes[b] <= less[k].index
    ensures Processed(c, t, b)
  {
    hide Processed;
    var e := less[k];
    assert ElementRight(c, t, e) && Complete(c, t, e.index);
    if b < Obtained(s) {
      assert HasElement(s, c.indexes[b]);
      if i :| 0 <= i < |s.cleared| && s.cleared[i].index == c.indexes[b] {
        assert s.cleared[i] in s.cleared;
      } else {
        var m :| 0 <= m < |s.saved| && s.saved[m].index == c.indexes[b];
        assert ElementRight(c, t, less[m]);
        if m < n {
          assert Complete(c, t, less[m].index);
        } else {
          assert s.saved[k].id < s.saved[m].id;
          assert c.indexes[e.id - 1] <= c.indexes[less[m].id - 1];
        }
      }
    } else {
      assert e.id - 1 < Obtained(s) <= b;
      assert c.indexes[e.id - 1] <= c.indexes[b];
    }
  }

  /** What a list holds was kept or cleared. */
  lemma ListedOrCleared(less: seq<Acks.Saved>, n: nat, cleared: seq<Acks.Saved>, record: nat)
    requires n <= |less| && (Lists(less, record) || Lists(cleared, record))
    ensures Lists(less[n..], record) || Lists(cleared + less[..n], record)
  {
    if i :| 0 <= i < |less| && less[i].index == record {
      if i < n {
        assert (cleared + less[..n])[|cleared| + i] == less[i];
      } else {
        assert less[n..][i - n] == less[i];
      }
    } else {
      var i :| 0 <= i < |cleared| && cleared[i].index == record;
      assert (cleared + less[..n])[i] == cleared[i];
    }
  }

  /** The state after an acknowledgement that cleared the first `n` elements. */
  lemma ClearKeeps(c: Config, s: State, t: State, less: seq<Acks.Saved>, n: nat)
    requires Recorded(c) && RecordInv(c, s) && LastIsLast(c, t) && Obtained(t) == Obtained(s) && !t.freed
    requires forall x: nat | Processed(c, s, x) :: Processed(c, t, x)
    requires Elements(c, s, t, less)
    requires n <= |less| && (forall i | 0 <= i < n :: less[i].required == 0)
    requires t.saved == less[n..] && t.cleared == s.cleared + less[..n] && Acks.Ordered(t.saved)
    ensures RecordInv(c, t)
  {
    hide Processed, Lists, ElementRight, LastIsLast;
    forall e, b: nat | e in t.cleared && b < |c.batches| && c.indexes[b] <= e.index ensures Processed(c, t, b) {
      if e !in s.cleared {
        var k :| 0 <= k < n && less[k] == e;
        ClearedPrefix(c, s, t, less, n, k, b);
      }
    }
    forall b: nat | b < Obtained(t) && b < |c.batches| ensures HasElement(t, c.indexes[b]) {
      assert HasElement(s, c.indexes[b]);
      ListsSame(s.saved, less, c.indexes[b]);
      ListedOrCleared(less, n, s.cleared, c.indexes[b]);
    }
  }

  lemma NotPremature(c: Config, s: State, w: nat)
    requires |c.indexes| == |c.batches| && w < |s.workers| && s.workers[w].stage.Processed? && !Premature(c, s, Ack(w))
    requires Latest(c, s, s.workers[w].stage.node.batch)
    ensures OthersProcessed(c, s, s.workers[w].stage.node.batch)
  {
    hide Processed;
  }

  /** With at most one to wait for, the oldest element is never overtaken. */
  lemma NotOvertaken(c: Config, s: State, id: nat)
    requires Recorded(c) && RecordInv(c, s)
    ensures !Acks.Overtaken(s.saved, id)
  {
    if s.saved != [] {
      assert ElementRight(c, s, s.saved[0]);
    }
  }

  lemma LoweredElements(c: Config, s: State, t: State, a: nat)
    requires Recorded(c) && RecordInv(c, s) && Obtained(t) == Obtained(s) && a < |c.batches| && !Processed(c, s, a)
    requires forall b: nat :: Processed(c, t, b) <==> Processed(c, s, b) || b == a
    ensures Elements(c, s, t, Acks.Less(s.saved, a + 1))
  {
    hide Processed, ElementRight, LastIsLast, ForgottenProcessed;
    var less := Acks.Less(s.saved, a + 1);
    forall i | 0 <= i < |less|
      ensures less[i].id == s.saved[i].id && less[i].index == s.saved[i].index && ElementRight(c, t, less[i])
    {
      assert s.saved[i] in s.saved;
      LoweredElement(c, s, t, a, s.saved[i]);
    }
  }

  lemma InvParts(c: Config, s: State)
    requires |c.indexes| == |c.batches| && RecordInv(c, s)
    ensures Acks.Ordered(s.saved) && LastIsLast(c, s)
  {
  }

  /** What an acknowledgement leaves, seen from the list. */
  lemma AckSettles(c: Config, s: State, t: State, a: nat)
    requires Recorded(c) && RecordInv(c, s) && a < |c.batches| && !Processed(c, s, a)
    requires forall b: nat :: Processed(c, t, b) <==> Processed(c, s, b) || b == a
    requires Latest(c, s, a) ==> OthersProcessed(c, s, a)
    requires Obtained(t) == Obtained(s) && !t.freed
    requires t.saved == Acks.Acknowledge(s.saved, a + 1).list && t.cleared == s.cleared + Acks.Acknowledge(s.saved, a + 1).cleared
    ensures RecordInv(c, t)
  {
    hide Processed, Acks.Acknowledge, Acks.Less, Acks.DonePrefix, RecordInv, OthersProcessed, Elements, Latest, Acks.Ordered;
    InvParts(c, s);
    AckLatest(c, s, t, a);
    var less := Acks.Less(s.saved, a + 1);
    LoweredElements(c, s, t, a);
    NotOvertaken(c, s, a + 1);
    Acks.ClearsDonePrefix(s.saved, a + 1);
    Acks.AcknowledgeKeeps(s.saved, a + 1);
    ClearKeeps(c, s, t, less, Acks.DonePrefix(less));
  }

  lemma AckRecords(c: Config, s: State, w: nat)
    requires Recorded(c) && OrderInv(c, s) && RecordInv(c, s) && Enabled(c, s, Ack(w)) && !Premature(c, s, Ack(w))
    ensures RecordInv(c, Next(c, s, Ack(w)))
  {
    hide OrderInv, Next, Processed, Acks.Acknowledge, RecordInv, OthersProcessed, Premature, Latest;
    var t, a := Next(c, s, Ack(w)), s.workers[w].stage.node.batch;
    ProcessedAfterAck(c, s, w, 0);
    forall b: nat ensures Processed(c, t, b) <==> Processed(c, s, b) || b == a {
      ProcessedAfterAck(c, s, w, b);
    }
    AckFacts(c, s, w);
    if Latest(c, s, a) {
      NotPremature(c, s, w);
    }
    AckSettles(c, s, t, a);
  }

  /** Every step that is not hasty keeps the invariant. */
  lemma StepRecords(c: Config, s: State, step: Step)
    requires Recorded(c) && OrderInv(c, s) && RecordInv(c, s) && Enabled(c, s, step) && !Hasty(c, s, step)
    ensures RecordInv(c, Next(c, s, step))
  {
    hide RecordInv, OrderInv, Next, Premature;
    match step
    case Ack(w) => AckRecords(c, s, w);
    case Take =>
      if Shared(c, s.batch) {
        TakeSharedInv(c, s);
      } else {
        TakeNewInv(c, s);
      }
    case _ => OtherStepInv(c, s, step);
  }

  /** A premature acknowledgement makes a record count as done that is not. */
  lemma PrematureIsWrong(c: Config, s: State, step: Step)
    requires Recorded(c) && OrderInv(c, s) && RecordInv(c, s) && Enabled(c, s, step) && Premature(c, s, step)
    ensures !RecordsRight(c, Next(c, s, step))
  {
    hide Assigned, OrderInv, Next, Processed, Acks.Acknowledge, Lists, RecordsRight, ForgottenProcessed, LastIsLast, ElementRight;
    var t, a := Next(c, s, step), s.workers[step.w].stage.node.batch;
    var other: nat :| other < |c.batches| && other != a && c.indexes[other] == c.indexes[a] && !Processed(c, s, other);
    ProcessedAfterAck(c, s, step.w, other);
    AckFacts(c, s, step.w);
    var i := ElementOf(c, s, a);
    Acks.KeptOrCleared(s.saved, a + 1, i);
    MarkedIsWrong(c, t, Acks.Saved(a + 1, c.indexes[a], 0), other);
  }

  lemma MarkedIsWrong(c: Config, s: State, e: Acks.Saved, b: nat)
    requires |c.indexes| == |c.batches| && (e in s.saved || e in s.cleared) && e.required == 0
    requires b < |c.batches| && c.indexes[b] == e.index && !Processed(c, s, b)
    ensures !RecordsRight(c, s)
  {
    hide Processed;
    assert !Complete(c, s, e.index);
  }

  lemma UnpreparedIsWrong(c: Config, s: State, step: Step)
    requires Recorded(c) && RecordInv(c, s) && Enabled(c, s, step) && Unprepared(c, s, step)
    ensures Next(c, s, step).freed
  {
    NumberedFromOne(c, s);
  }

  lemma NumberedFromOne(c: Config, s: State)
    requires Recorded(c) && RecordInv(c, s)
    ensures !Acks.Current(s.saved, 1)
  {
    if s.saved != [] {
      assert ElementRight(c, s, s.saved[|s.saved| - 1]);
    }
  }

  // ------------------------------------------------------------------ runs

  ghost predicate NeverHasty(c: Config, s: State, steps: seq<Step>)
    requires |c.indexes| == |c.batches| && Possible(c, s, steps)
    decreases |steps|
  {
    steps == [] || (!Hasty(c, s, steps[0]) && NeverHasty(c, Next(c, s, steps[0]), steps[1..]))
  }

  ghost predicate AlwaysRight(c: Config, s: State, steps: seq<Step>)
    requires |c.indexes| == |c.batches| && Possible(c, s, steps)
    decreases |steps|
  {
    RecordsRight(c, s) && (steps == [] || AlwaysRight(c, Next(c, s, steps[0]), steps[1..]))
  }

  lemma {:induction false} RightIffNeverHasty(c: Config, s: State, steps: seq<Step>)
    requires Recorded(c) && OrderInv(c, s) && RecordInv(c, s) && Possible(c, s, steps)
    ensures AlwaysRight(c, s, steps) <==> NeverHasty(c, s, steps)
    decreases |steps|
  {
    hide OrderInv, RecordInv, Enabled, Next, RecordsRight, Premature, Unprepared;
    InvIsRight(c, s);
    if steps != [] {
      var step, t := steps[0], Next(c, s, steps[0]);
      StepOrder(c, s, step);
      if Premature(c, s, step) {
        PrematureIsWrong(c, s, step);
      } else if Unprepared(c, s, step) {
        UnpreparedIsWrong(c, s, step);
        FreedIsWrong(c, t);
      } else {
        StepRecords(c, s, step);
        RightIffNeverHasty(c, t, steps[1..]);
      }
    }
  }

  lemma FreedIsWrong(c: Config, s: State)
    requires |c.indexes| == |c.batches| && s.freed
    ensures !RecordsRight(c, s)
  {
  }

  /** Throughout a run, records count as done and are forgotten only after all their events were
      processed, and no freed element is written to, exactly when the run makes no hasty step. */
  lemma RunsRightIff(c: Config, steps: seq<Step>)
    requires Recorded(c) && Possible(c, Start(c), steps)
    ensures AlwaysRight(c, Start(c), steps) <==> NeverHasty(c, Start(c), steps)
  {
    StartOrder(c);
    StartInv(c);
    RightIffNeverHasty(c, Start(c), steps);
  }

  // ------------------------------------------------------------------ one worker for each record

  /** The events of each record go to one worker. */
  ghost predicate OneWorkerEach(c: Config)
    requires Recorded(c)
  {
    forall a: nat, b: nat | a < |c.batches| && b < |c.batches| && c.indexes[a] == c.indexes[b] ::
      c.batches[a][0].worker == c.batches[b][0].worker
  }

  /** A worker is through with what it was handed before what it has in hand. */
  lemma DoneBeforeHand(c: Config, s: State, w: nat, early: Node)
    requires Split(c) && OrderInv(c, s) && w < |s.workers| && s.workers[w].stage.Processed?
    requires InConfig(c, early) && WorkerOf(c, early) == w && early.batch < s.workers[w].stage.node.batch
    ensures Done(c, s, early)
  {
    hide Assigned;
    var x := s.workers[w];
    assert WorkerInv(c, s, w);
    AssignedIs(c, w, s.batch, s.sub);
    InHandIsPending(c, s, w);
    var trace := Trace(x);
    assert trace[|x.done|] == x.stage.node && x.stage.node in trace;
    assert early in trace;
    var j :| 0 <= j < |trace| && trace[j] == early;
    assert j < |x.done|;
    assert x.done[j] == early;
  }

  /** An acknowledgement is premature then exactly when the next event is of the same record and was
      not saved yet. */
  lemma PrematureIffUnsaved(c: Config, s: State, w: nat)
    requires Recorded(c) && OneWorkerEach(c) && OrderInv(c, s) && Enabled(c, s, Ack(w))
    ensures var b := s.workers[w].stage.node.batch;
            Premature(c, s, Ack(w)) <==> b + 1 == Obtained(s) < |c.batches| && c.indexes[b + 1] == c.indexes[b]
  {
    hide Assigned, OrderInv;
    var b := s.workers[w].stage.node.batch;
    ProcessedAfterAck(c, s, w, b);
    InHandIsPending(c, s, w);
    if Premature(c, s, Ack(w)) {
      var a: nat :| a < |c.batches| && a != b && c.indexes[a] == c.indexes[b] && !Processed(c, s, a);
      if a < b {
        DoneBeforeHand(c, s, w, Node(a, 0));
      }
      assert b < a;
      assert b + 1 < a ==> c.indexes[b + 1] <= c.indexes[a];
    } else if b + 1 == Obtained(s) < |c.batches| {
      UnsavedIsPending(c, s, b + 1);
    }
  }

  // ------------------------------------------------------------------ all runs

  ghost predicate NoneShared(c: Config) {
    forall b: nat | b < |c.indexes| :: !Shared(c, b)
  }

  lemma UnsharedIncrease(c: Config, a: nat, b: nat)
    requires Recorded(c) && NoneShared(c) && a < b < |c.indexes|
    ensures c.indexes[a] < c.indexes[b]
  {
    assert !Shared(c, b);
    assert a < b - 1 ==> c.indexes[a] <= c.indexes[b - 1];
  }

  lemma UnsharedNeverHasty(c: Config, s: State, step: Step)
    requires Recorded(c) && NoneShared(c)
    ensures !Hasty(c, s, step)
  {
    forall a: nat, b: nat | a < |c.batches| && b < |c.batches| && a != b ensures c.indexes[a] != c.indexes[b] {
      UnsharedIncrease(c, if a < b then a else b, if a < b then b else a);
    }
  }

  lemma {:induction false} UnsharedRunsRight(c: Config, s: State, steps: seq<Step>)
    requires Recorded(c) && NoneShared(c) && OrderInv(c, s) && RecordInv(c, s) && Possible(c, s, steps)
    ensures RecordsRight(c, Run(c, s, steps))
    decreases |steps|
  {
    hide OrderInv, RecordInv, Enabled, Next, RecordsRight, Hasty, NoneShared;
    InvIsRight(c, s);
    if steps != [] {
      StepOrder(c, s, steps[0]);
      UnsharedNeverHasty(c, s, steps[0]);
      StepRecords(c, s, steps[0]);
      UnsharedRunsRight(c, Next(c, s, steps[0]), steps[1..]);
    }
  }

  /** Everything before batch `b` was handed out, processed and cleared. */
  ghost predicate Quiet(c: Config, s: State, b: nat)
    requires |c.indexes| == |c.batches|
  {
    && b <= |c.batches| && s == State(b, false, 0, true, false, false, s.workers, [], s.cleared, false)
    && |s.workers| == c.workers && (forall w | 0 <= w < c.workers :: s.workers[w] == Worker([], Idle, s.workers[w].done))
    && (b > 0 ==> s.cleared != [] && s.cleared[|s.cleared| - 1].index == c.indexes[b - 1])
  }

  lemma OneElement(e: Acks.Saved)
    requires e.required == 1
    ensures Acks.Acknowledge([e], e.id) == Acks.Outcome([], [e.(required := 0)])
  {
    var less := [e.(required := 0)];
    assert Acks.Less([e], e.id) == less && less[1..] == [];
    assert Acks.DonePrefix(less) == 1 + Acks.DonePrefix(less[1..]);
    assert less[..1] == less;
  }

  lemma HandedOver(c: Config, s: State, b: nat) returns (t: State)
    requires Recorded(c) && Reachable(c, s) && Quiet(c, s, b) && b < |c.batches| && !Shared(c, b)
    ensures var w := c.batches[b][0].worker;
            && w < |s.workers|
            && t == s.(taken := true, sub := 1, saved := [Acks.Saved(b + 1, c.indexes[b], 1)],
                       workers := s.workers[w := Worker([Node(b, 0)], Idle, s.workers[w].done)])
            && Reachable(c, t)
  {
    hide Reachable;
    var w, n, e := c.batches[b][0].worker, Node(b, 0), Acks.Saved(b + 1, c.indexes[b], 1);
    var none: seq<Node> := [];
    ReachableNext(c, s, Take);
    assert s.saved + [e] == [e];
    var s1 := s.(taken := true, saved := [e]);
    ReachableNext(c, s1, Send);
    assert none + [n] == [n];
    t := s1.(workers := s1.workers[w := Worker([n], Idle, s.workers[w].done)], sub := 1);
  }

  /** One event handed out, processed and acknowledged before the next one is saved. */
  lemma OneAfterAnother(c: Config, s: State, b: nat) returns (t: State)
    requires Recorded(c) && Reachable(c, s) && Quiet(c, s, b) && b < |c.batches| && !Shared(c, b)
    ensures Reachable(c, t) && Quiet(c, t, b + 1)
  {
    hide Reachable, Acks.Acknowledge;
    var w, n, e := c.batches[b][0].worker, Node(b, 0), Acks.Saved(b + 1, c.indexes[b], 1);
    var none: seq<Node> := [];
    var done := s.workers[w].done;
    var s2 := HandedOver(c, s, b);
    assert [n] + none == [n];
    var s1 := s.(taken := true, saved := [e]);
    OneElement(e);
    WorksOff(c, s2, w, n, none, done, Acks.Outcome([], [e.(required := 0)]));
    var s3 := s1.(workers := s1.workers[w := Worker([], Idle, done + [n])], sub := 1, saved := [], cleared := s.cleared + [e.(required := 0)]);
    assert s2.workers[w := Worker([], Idle, done + [n])] == s3.workers;
    ReachableNext(c, s3, Finish);
    t := s3.(batch := b + 1, taken := false, sub := 0);
  }

  lemma {:induction false} Drive(c: Config, b: nat) returns (s: State)
    requires Recorded(c) && b <= |c.batches| && forall a: nat | a < b :: !Shared(c, a)
    ensures Reachable(c, s) && Quiet(c, s, b)
  {
    hide Reachable;
    if b == 0 {
      s := Start(c);
      ReachableStart(c);
    } else {
      s := Drive(c, b - 1);
      s := OneAfterAnother(c, s, b - 1);
    }
  }

  lemma FirstShared(c: Config) returns (b: nat)
    requires !NoneShared(c)
    ensures b < |c.indexes| && Shared(c, b) && forall a: nat | a < b :: !Shared(c, a)
  {
    b :| b < |c.indexes| && Shared(c, b);
    while exists a: nat :: a < b && Shared(c, a)
      invariant b < |c.indexes| && Shared(c, b)
      decreases b
    {
      var a: nat :| a < b && Shared(c, a);
      b := a;
    }
  }

  /** The source without deduplication is right in every run exactly when no two events are of one
      record, and none of the record at which reading started. Otherwise some run forgets a record
      of which an event was not processed, or writes to an element that is gone. */
  lemma AllRunsRightIff(c: Config)
    requires Recorded(c)
    ensures (forall s | Reachable(c, s) :: !s.freed && ForgottenProcessed(c, s)) <==> NoneShared(c)
  {
    if NoneShared(c) {
      forall s | Reachable(c, s) ensures !s.freed && ForgottenProcessed(c, s) {
        var steps :| Possible(c, Start(c), steps) && Run(c, Start(c), steps) == s;
        StartOrder(c);
        StartInv(c);
        UnsharedRunsRight(c, Start(c), steps);
      }
    } else {
      var b := FirstShared(c);
      var s, t := SharedGoesWrong(c, b);
    }
  }

  /** Both faults, whatever the events and the workers: the events before are acknowledged before a
      second event of a record is saved; the record is cleared without it, and saving it writes to
      the element that was freed. */
  lemma SharedGoesWrong(c: Config, b: nat) returns (s: State, t: State)
    requires Recorded(c) && b < |c.indexes| && Shared(c, b) && forall a: nat | a < b :: !Shared(c, a)
    ensures Reachable(c, s) && !s.freed && (b > 0 ==> !ForgottenProcessed(c, s))
    ensures Reachable(c, t) && t.freed
  {
    s := Drive(c, b);
    ReachableOrder(c, s);
    UnsavedIsPending(c, s, b);
    if b > 0 {
      assert s.cleared[|s.cleared| - 1] in s.cleared;
    }
    ReachableNext(c, s, Take);
    t := Next(c, s, Take);
  }

  // ------------------------------------------------------------------ two workers for one record

  /** Two events of one record, each for a worker of its own. */
  function TwoOfOne(e: Event): Config {
    Config(2, [[SubBatch(0, [e])], [SubBatch(1, [e])]], [1, 1], false, 0)
  }

  /** The second event is processed first: its acknowledgement clears the record. */
  lemma LastClearsAlone(e: Event) returns (s: State)
    ensures Recorded(TwoOfOne(e)) && Reachable(TwoOfOne(e), s)
    ensures !s.freed && !ForgottenProcessed(TwoOfOne(e), s)
  {
    hide Reachable, Acks.Acknowledge, Done;
    var c, idle, none := TwoOfOne(e), Worker([], Idle, []), [];
    var x, y := Worker([Node(0, 0)], Idle, []), Worker([Node(1, 0)], Idle, []);
    s := Start(c);
    ReachableStart(c);
    assert Quiet(c, s, 0);
    s := HandedOver(c, s, 0);
    assert s.workers == [x, idle];
    ReachableNext(c, s, Finish);
    s := State(1, false, 0, true, false, false, [x, idle], [Acks.Saved(1, 1, 1)], [], false);
    ReachableNext(c, s, Take);
    assert Next(c, s, Take).saved == [Acks.Saved(2, 1, 1)];
    s := State(1, true, 0, true, false, false, [x, idle], [Acks.Saved(2, 1, 1)], [], false);
    ReachableNext(c, s, Send);
    assert none + [Node(1, 0)] == [Node(1, 0)] && [Node(1, 0)] + none == [Node(1, 0)];
    assert Next(c, s, Send).workers == [x, y];
    s := State(1, true, 1, true, false, false, [x, y], [Acks.Saved(2, 1, 1)], [], false);
    OneElement(Acks.Saved(2, 1, 1));
    WorksOff(c, s, 1, Node(1, 0), none, none, Acks.Outcome([], [Acks.Saved(2, 1, 0)]));
    s := SetWorker(s, 1, Worker(none, Idle, none + [Node(1, 0)])).(saved := [], cleared := s.cleared + [Acks.Saved(2, 1, 0)]);
    NotProcessed(c, s, 0, Acks.Saved(2, 1, 0));
  }

  lemma NotProcessed(c: Config, s: State, b: nat, e: Acks.Saved)
    requires |c.indexes| == |c.batches| && b < |c.batches| && |c.batches[b]| == 1 && e in s.cleared && c.indexes[b] <= e.index
    requires c.batches[b][0].worker < |s.workers| && s.workers[c.batches[b][0].worker].done == []
    ensures !ForgottenProcessed(c, s)
  {
    assert !Processed(c, s, b);
  }
}
