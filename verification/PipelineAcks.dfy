/** Acknowledgements in every run of the pipeline: what a batch still requires is what is left to
    process of it, and when batches are cleared in order.
 */
module PipelineAcks {
  import opened Pipeline
  import opened PipelineOrder
  import opened Fsevent
  import Acks

  /** Every batch has an element of its own: no two events of one record were saved apart. */
  ghost predicate Plain(c: Config) {
    Split(c) && forall b: nat | b < |c.indexes| :: !Shared(c, b)
  }

  predicate Done(c: Config, s: State, n: Node)
    requires InConfig(c, n)
  {
    WorkerOf(c, n) < |s.workers| && n in s.workers[WorkerOf(c, n)].done
  }

  /** The sub-batches of a batch that no worker processed and acknowledged. */
  ghost function Pending(c: Config, s: State, b: nat): set<nat>
    requires b < |c.batches|
  {
    set i: nat | i < |c.batches[b]| && !Done(c, s, Node(b, i))
  }

  /** How many batches the producer obtained. */
  function Obtained(s: State): nat {
    s.batch + if s.taken then 1 else 0
  }

  ghost predicate SavedRight(c: Config, s: State, e: Acks.Saved)
    requires |c.indexes| == |c.batches|
  {
    && 1 <= e.id <= Obtained(s) && e.id <= |c.batches| && e.index == c.indexes[e.id - 1]
    && e.required == |Pending(c, s, e.id - 1)|
  }

  ghost predicate Known(s: State, id: nat) {
    (exists e :: e in s.saved && e.id == id) || Cleared(s, id)
  }

  ghost predicate Cleared(s: State, id: nat) {
    exists e :: e in s.cleared && e.id == id
  }

  /** The batches that the source remembers or cleared are those the producer obtained; each of
      them requires exactly what is left of it, and those that were cleared require nothing. */
  ghost predicate AckInv(c: Config, s: State)
    requires |c.indexes| == |c.batches|
  {
    && Acks.Ordered(s.saved)
    && (forall e | e in s.saved :: SavedRight(c, s, e))
    && (forall e | e in s.cleared :: SavedRight(c, s, e) && e.required == 0)
    && (forall id | 1 <= id <= Obtained(s) :: Known(s, id))
  }

  // ------------------------------------------------------------------ one acknowledgement

  /** The node in hand was not processed before. */
  lemma InHandIsPending(c: Config, s: State, w: nat)
    requires Split(c) && OrderInv(c, s) && w < |s.workers| && s.workers[w].stage.Processed?
    ensures var n := s.workers[w].stage.node;
            InConfig(c, n) && WorkerOf(c, n) == w && n.batch < Obtained(s) && !Done(c, s, n)
  {
    hide Assigned;
    var x := s.workers[w];
    var n := x.stage.node;
    assert WorkerInv(c, s, w);
    AssignedIs(c, w, s.batch, s.sub);
    var trace := Trace(x);
    assert trace[|x.done|] == n;
    assert n in trace;
    forall k | 0 <= k < |x.done| ensures x.done[k] != n {
      assert trace[k] == x.done[k] && trace[k].batch < trace[|x.done|].batch;
    }
  }

  lemma PendingAfterAck(c: Config, s: State, w: nat, b: nat)
    requires Split(c) && OrderInv(c, s) && Enabled(c, s, Ack(w)) && b < |c.batches|
    ensures var n := s.workers[w].stage.node;
            var t := Next(c, s, Ack(w));
            if b == n.batch then n.sub in Pending(c, s, b) && Pending(c, t, b) == Pending(c, s, b) - {n.sub}
            else Pending(c, t, b) == Pending(c, s, b)
  {
    InHandIsPending(c, s, w);
    var n := s.workers[w].stage.node;
    var t := Next(c, s, Ack(w));
    forall i: nat | i < |c.batches[b]|
      ensures Done(c, t, Node(b, i)) <==> Done(c, s, Node(b, i)) || Node(b, i) == n
    {
    }
  }

  lemma LoweredIsRight(c: Config, s: State, w: nat, e: Acks.Saved)
    requires Split(c) && OrderInv(c, s) && Enabled(c, s, Ack(w)) && SavedRight(c, s, e)
    ensures var id := s.workers[w].stage.node.batch + 1;
            SavedRight(c, Next(c, s, Ack(w)), Acks.Lowered(e, id)) && (e.id == id ==> e.required > 0)
  {
    hide Pending;
    PendingAfterAck(c, s, w, e.id - 1);
  }

  lemma AckIsAwaited(c: Config, s: State, w: nat)
    requires Split(c) && OrderInv(c, s) && AckInv(c, s) && Enabled(c, s, Ack(w))
    ensures Acks.Awaits(s.saved, s.workers[w].stage.node.batch + 1)
  {
    hide Pending, Assigned;
    InHandIsPending(c, s, w);
    var id := s.workers[w].stage.node.batch + 1;
    assert Known(s, id);
    if e :| e in s.cleared && e.id == id {
      LoweredIsRight(c, s, w, e);
      assert false;
    } else {
      var e :| e in s.saved && e.id == id;
      LoweredIsRight(c, s, w, e);
      var i :| 0 <= i < |s.saved| && s.saved[i] == e;
    }
  }

  lemma AckKeeps(c: Config, s: State, w: nat)
    requires Split(c) && OrderInv(c, s) && AckInv(c, s) && Enabled(c, s, Ack(w))
    ensures AckInv(c, Next(c, s, Ack(w)))
  {
    hide Pending, Assigned, Acks.Acknowledge, Acks.Less, SavedRight, OrderInv;
    var id := s.workers[w].stage.node.batch + 1;
    var t := Next(c, s, Ack(w));
    Acks.AcknowledgeKeeps(s.saved, id);
    var less := Acks.Less(s.saved, id);
    forall e | e in less ensures SavedRight(c, t, e) {
      var i :| 0 <= i < |less| && less[i] == e;
      LoweredIsRight(c, s, w, s.saved[i]);
    }
    forall e | e in s.cleared ensures SavedRight(c, t, e) && e.required == 0 {
      LoweredIsRight(c, s, w, e);
      assert Acks.Lowered(e, id) == e;
    }
    forall i | 1 <= i <= Obtained(t) ensures Known(t, i) {
      KnownStays(c, s, w, i);
    }
  }

  lemma AckFacts(c: Config, s: State, w: nat)
    requires Enabled(c, s, Ack(w))
    ensures var t, o := Next(c, s, Ack(w)), Acks.Acknowledge(s.saved, s.workers[w].stage.node.batch + 1);
            Obtained(t) == Obtained(s) && !t.freed && t.saved == o.list && t.cleared == s.cleared + o.cleared
  {
    hide Acks.Acknowledge, Moved;
  }

  lemma KnownStays(c: Config, s: State, w: nat, i: nat)
    requires Enabled(c, s, Ack(w)) && Acks.Ordered(s.saved) && Known(s, i)
    ensures Known(Next(c, s, Ack(w)), i)
  {
    hide Acks.Acknowledge, Next, Acks.Ordered;
    var id := s.workers[w].stage.node.batch + 1;
    var t := Next(c, s, Ack(w));
    AckFacts(c, s, w);
    if e :| e in s.cleared && e.id == i {
      assert e in t.cleared;
    } else {
      var e :| e in s.saved && e.id == i;
      var k :| 0 <= k < |s.saved| && s.saved[k] == e;
      Acks.KeptOrCleared(s.saved, id, k);
      assert Acks.Lowered(e, id).id == i;
    }
  }

  // ------------------------------------------------------------------ the other steps

  lemma DoneOnlyByAck(c: Config, s: State, step: Step, b: nat)
    requires Enabled(c, s, step) && !step.Ack? && b < |c.batches|
    ensures Pending(c, Next(c, s, step), b) == Pending(c, s, b)
  {
    var t := Next(c, s, step);
    assert |t.workers| == |s.workers|;
    assert forall v | 0 <= v < |s.workers| :: t.workers[v].done == s.workers[v].done;
    assert forall i: nat | i < |c.batches[b]| :: Done(c, t, Node(b, i)) <==> Done(c, s, Node(b, i));
  }

  lemma TakeKeeps(c: Config, s: State)
    requires Plain(c) && OrderInv(c, s) && AckInv(c, s) && Enabled(c, s, Take)
    ensures AckInv(c, Next(c, s, Take))
  {
    hide Assigned, Pending;
    var t := Next(c, s, Take);
    var e := t.saved[|s.saved|];
    NewIsPending(c, s);
    DoneOnlyByAck(c, s, Take, s.batch);
    forall f | f in s.saved + s.cleared ensures SavedRight(c, t, f) && f.id < e.id {
      DoneOnlyByAck(c, s, Take, f.id - 1);
    }
    assert forall i | 0 <= i < |s.saved| :: s.saved[i] in s.saved + s.cleared;
    forall id | 1 <= id <= Obtained(t) ensures Known(t, id) {
      if id == e.id {
        assert e in t.saved;
      } else {
        assert Known(s, id);
        if f :| f in s.saved && f.id == id {
          assert f in t.saved;
        }
      }
    }
  }

  lemma NewIsPending(c: Config, s: State)
    requires Split(c) && OrderInv(c, s) && Enabled(c, s, Take)
    ensures |Pending(c, s, s.batch)| == |c.batches[s.batch]| > 0
  {
    hide Assigned;
    var b := s.batch;
    forall i: nat | i < |c.batches[b]| ensures !Done(c, s, Node(b, i)) {
      var w := c.batches[b][i].worker;
      assert WorkerInv(c, s, w);
      AssignedIs(c, w, s.batch, s.sub);
      var x := s.workers[w];
      forall k | 0 <= k < |x.done| ensures x.done[k] != Node(b, i) {
        assert Trace(x)[k] == x.done[k] && x.done[k] in Trace(x);
      }
    }
    assert Pending(c, s, b) == UpTo(|c.batches[b]|);
  }

  function UpTo(n: nat): (r: set<nat>)
    ensures |r| == n && forall i: nat :: i in r <==> i < n
  {
    if n == 0 then {} else UpTo(n - 1) + {n - 1}
  }

  lemma OtherKeeps(c: Config, s: State, step: Step)
    requires Split(c) && OrderInv(c, s) && AckInv(c, s) && Enabled(c, s, step) && !step.Ack? && !step.Take?
    ensures AckInv(c, Next(c, s, step))
  {
    hide Assigned, Pending;
    var t := Next(c, s, step);
    assert t.saved == s.saved && t.cleared == s.cleared && Obtained(t) == Obtained(s);
    forall e | e in s.saved + s.cleared ensures SavedRight(c, t, e) {
      DoneOnlyByAck(c, s, step, e.id - 1);
    }
    forall id | 1 <= id <= Obtained(t) ensures Known(t, id) {
      assert Known(s, id);
    }
  }

  lemma StepAcks(c: Config, s: State, step: Step)
    requires Plain(c) && OrderInv(c, s) && AckInv(c, s) && Enabled(c, s, step)
    ensures AckInv(c, Next(c, s, step))
  {
    match step
    case Take => TakeKeeps(c, s);
    case Ack(w) => AckKeeps(c, s, w);
    case _ => OtherKeeps(c, s, step);
  }

  lemma {:induction false} RunAcks(c: Config, s: State, steps: seq<Step>)
    requires Plain(c) && OrderInv(c, s) && AckInv(c, s) && Possible(c, s, steps)
    ensures OrderInv(c, Run(c, s, steps)) && AckInv(c, Run(c, s, steps))
    decreases |steps|
  {
    hide OrderInv, AckInv, Enabled, Next;
    if steps != [] {
      StepOrder(c, s, steps[0]);
      StepAcks(c, s, steps[0]);
      RunAcks(c, Next(c, s, steps[0]), steps[1..]);
    }
  }

  lemma ReachableAcks(c: Config, s: State)
    requires Plain(c) && Reachable(c, s)
    ensures OrderInv(c, s) && AckInv(c, s)
  {
    hide OrderInv;
    var steps :| Possible(c, Start(c), steps) && Run(c, Start(c), steps) == s;
    StartOrder(c);
    RunAcks(c, Start(c), steps);
  }

  // ------------------------------------------------------------------ what acknowledgements mean

  /** In every run, a batch is cleared only after each of its sub-batches was processed. */
  lemma ClearedIsProcessed(c: Config, s: State, e: Acks.Saved, i: nat)
    requires Plain(c) && Reachable(c, s) && e in s.cleared && 1 <= e.id <= |c.batches| && i < |c.batches[e.id - 1]|
    ensures Done(c, s, Node(e.id - 1, i))
  {
    ReachableAcks(c, s);
    assert SavedRight(c, s, e);
    assert i !in Pending(c, s, e.id - 1);
  }

  lemma EverythingDone(c: Config, s: State, n: Node)
    requires Split(c) && OrderInv(c, s) && Succeeded(s) && NoneLost(s) && InConfig(c, n)
    ensures Done(c, s, n)
  {
    hide Assigned;
    var w := WorkerOf(c, n);
    assert WorkerInv(c, s, w);
    AssignedIs(c, w, s.batch, s.sub);
    assert Trace(s.workers[w]) == s.workers[w].done;
  }

  /** What a worker gave up in is never done. */
  lemma LostIsPending(c: Config, s: State, w: nat)
    requires Split(c) && OrderInv(c, s) && w < |s.workers| && s.workers[w].stage.Gone? && s.workers[w].stage.lost.Some?
    ensures var n := s.workers[w].stage.lost.value;
            InConfig(c, n) && WorkerOf(c, n) == w && n.batch < Obtained(s) && !Done(c, s, n)
  {
    hide Assigned;
    var x := s.workers[w];
    var n := x.stage.lost.value;
    assert WorkerInv(c, s, w);
    AssignedIs(c, w, s.batch, s.sub);
    var trace := Trace(x);
    assert trace[|x.done|] == n;
    assert n in trace;
    forall k | 0 <= k < |x.done| ensures x.done[k] != n {
      assert trace[k] == x.done[k] && trace[k].batch < trace[|x.done|].batch;
    }
  }

  lemma LostKeepsList(c: Config, s: State, w: nat)
    requires Split(c) && OrderInv(c, s) && AckInv(c, s)
    requires w < |s.workers| && s.workers[w].stage.Gone? && s.workers[w].stage.lost.Some?
    ensures s.saved != []
  {
    hide Assigned, OrderInv;
    LostIsPending(c, s, w);
    var n := s.workers[w].stage.lost.value;
    assert n.sub in Pending(c, s, n.batch);
    assert Known(s, n.batch + 1);
    forall e | e in s.cleared ensures e.id != n.batch + 1 {
      assert SavedRight(c, s, e);
    }
  }

  /** A run without error leaves no batch unacknowledged exactly when no worker gave up; every batch
      is cleared then. */
  lemma AllCleared(c: Config, s: State)
    requires Plain(c) && Reachable(c, s) && Succeeded(s)
    ensures s.saved == [] <==> NoneLost(s)
    ensures NoneLost(s) ==> forall id | 1 <= id <= |c.batches| :: Cleared(s, id)
  {
    ReachableAcks(c, s);
    if NoneLost(s) {
      NoneLostClears(c, s);
    } else {
      var w :| 0 <= w < |s.workers| && s.workers[w].stage.Gone? && s.workers[w].stage.lost.Some?;
      LostKeepsList(c, s, w);
    }
  }

  lemma NoneLostClears(c: Config, s: State)
    requires Plain(c) && OrderInv(c, s) && AckInv(c, s) && Succeeded(s) && NoneLost(s)
    ensures s.saved == [] && forall id | 1 <= id <= |c.batches| :: Cleared(s, id)
  {
    hide Assigned;
    assert s.saved != [] ==> s.saved[0] in s.saved;
    forall a: nat | a < |c.batches| ensures Pending(c, s, a) == {} {
      forall i: nat | i < |c.batches[a]| ensures Done(c, s, Node(a, i)) {
        EverythingDone(c, s, Node(a, i));
      }
    }
    forall id | 1 <= id <= |c.batches| ensures Cleared(s, id) {
      assert Known(s, id);
    }
  }

  // ------------------------------------------------------------------ clearing in order

  /** A batch is cleared only when nothing before it is left to process. */
  ghost predicate ClearedInOrder(c: Config, s: State) {
    forall e, n | e in s.cleared && InConfig(c, n) && n.batch < e.id :: Done(c, s, n)
  }

  /** Cleared batches come first, then those the source remembers; none is missing. */
  ghost predicate Contiguous(s: State) {
    Numbered(s.cleared, s.saved, Obtained(s))
  }

  ghost predicate Numbered(cleared: seq<Acks.Saved>, saved: seq<Acks.Saved>, n: nat) {
    && |cleared| + |saved| == n
    && (forall i | 0 <= i < |cleared| :: cleared[i].id == i + 1)
    && (forall i | 0 <= i < |saved| :: saved[i].id == |cleared| + i + 1)
  }

  lemma NumberedMoves(cleared: seq<Acks.Saved>, saved: seq<Acks.Saved>, n: nat, id: nat, k: nat)
    requires Numbered(cleared, saved, n) && k <= |saved|
    ensures var less := Acks.Less(saved, id);
            Numbered(cleared + less[..k], less[k..], n)
  {
  }

  ghost predicate Overtakes(s: State, step: Step) {
    step.Ack? && step.w < |s.workers| && s.workers[step.w].stage.Processed?
    && Acks.Overtaken(s.saved, s.workers[step.w].stage.node.batch + 1)
  }

  lemma ContiguousInOrder(c: Config, s: State)
    requires Split(c) && AckInv(c, s) && Contiguous(s)
    ensures ClearedInOrder(c, s)
  {
    forall e, n | e in s.cleared && InConfig(c, n) && n.batch < e.id ensures Done(c, s, n) {
      var k :| 0 <= k < |s.cleared| && s.cleared[k] == e;
      var f := s.cleared[n.batch];
      assert f in s.cleared && f.id == n.batch + 1;
      assert SavedRight(c, s, f);
      assert n.sub !in Pending(c, s, n.batch);
      assert Node(n.batch, n.sub) == n;
    }
  }

  lemma StepContiguous(c: Config, s: State, step: Step)
    requires Plain(c) && OrderInv(c, s) && AckInv(c, s) && Contiguous(s) && Enabled(c, s, step) && !Overtakes(s, step)
    ensures Contiguous(Next(c, s, step))
  {
    hide Assigned, AckInv, OrderInv;
    if step.Ack? {
      AckContiguous(c, s, step.w);
    }
  }

  lemma AckContiguous(c: Config, s: State, w: nat)
    requires Split(c) && OrderInv(c, s) && AckInv(c, s) && Contiguous(s) && Enabled(c, s, Ack(w)) && !Overtakes(s, Ack(w))
    ensures Contiguous(Next(c, s, Ack(w)))
  {
    hide Assigned, Acks.Less, Acks.Acknowledge, AckInv, OrderInv, Numbered, Split;
    var id := s.workers[w].stage.node.batch + 1;
    AckListed(c, s, w);
    NumberedMoves(s.cleared, s.saved, Obtained(s), id, Acks.DonePrefix(Acks.Less(s.saved, id)));
  }

  lemma AckListed(c: Config, s: State, w: nat)
    requires Split(c) && OrderInv(c, s) && AckInv(c, s) && Enabled(c, s, Ack(w)) && !Overtakes(s, Ack(w))
    ensures var id := s.workers[w].stage.node.batch + 1;
            var less := Acks.Less(s.saved, id);
            Acks.Acknowledge(s.saved, id) == Acks.Outcome(less[Acks.DonePrefix(less)..], less[..Acks.DonePrefix(less)])
  {
    AckIsAwaited(c, s, w);
    Acks.ClearsDonePrefix(s.saved, s.workers[w].stage.node.batch + 1);
  }

  /** A step that overtakes clears a batch although something before it is left to process. */
  lemma OvertakingIsOutOfOrder(c: Config, s: State, step: Step)
    requires Split(c) && OrderInv(c, s) && AckInv(c, s) && Enabled(c, s, step) && Overtakes(s, step)
    ensures !ClearedInOrder(c, Next(c, s, step))
  {
    hide Assigned, Acks.Less;
    var t := Next(c, s, step);
    var id := s.workers[step.w].stage.node.batch + 1;
    var less := Acks.Less(s.saved, id);
    AckKeeps(c, s, step.w);
    var oldest, next := less[0], less[1];
    assert t.saved[0] == oldest;
    assert Acks.Acknowledge(s.saved, id).cleared[0] == next;
    assert next in t.cleared && next.id > oldest.id;
    assert SavedRight(c, t, oldest);
    var i :| i in Pending(c, t, oldest.id - 1);
    assert !Done(c, t, Node(oldest.id - 1, i));
  }

  /** No step of the run overtakes the oldest batch. */
  ghost predicate NeverOvertakes(c: Config, s: State, steps: seq<Step>)
    requires Possible(c, s, steps)
    decreases |steps|
  {
    steps == [] || (!Overtakes(s, steps[0]) && NeverOvertakes(c, Next(c, s, steps[0]), steps[1..]))
  }

  /** Every state of the run clears in order. */
  ghost predicate AlwaysInOrder(c: Config, s: State, steps: seq<Step>)
    requires Possible(c, s, steps)
    decreases |steps|
  {
    ClearedInOrder(c, s) && (steps == [] || AlwaysInOrder(c, Next(c, s, steps[0]), steps[1..]))
  }

  /** A run clears in order throughout exactly when no acknowledgement finds the oldest batch
      waiting for more than one and the next one done. */
  lemma {:induction false} InOrderIffNeverOvertakes(c: Config, s: State, steps: seq<Step>)
    requires Plain(c) && OrderInv(c, s) && AckInv(c, s) && Contiguous(s) && Possible(c, s, steps)
    ensures AlwaysInOrder(c, s, steps) <==> NeverOvertakes(c, s, steps)
    decreases |steps|
  {
    hide OrderInv, AckInv, Enabled, Next, Contiguous, ClearedInOrder, Overtakes;
    ContiguousInOrder(c, s);
    if steps != [] {
      var step, t := steps[0], Next(c, s, steps[0]);
      StepOrder(c, s, step);
      StepAcks(c, s, step);
      if Overtakes(s, step) {
        OvertakingIsOutOfOrder(c, s, step);
      } else {
        StepContiguous(c, s, step);
        InOrderIffNeverOvertakes(c, t, steps[1..]);
      }
    }
  }

  /** From the start, a run clears in order throughout exactly when it never overtakes. */
  lemma RunsInOrderIff(c: Config, steps: seq<Step>)
    requires Plain(c) && Possible(c, Start(c), steps)
    ensures AlwaysInOrder(c, Start(c), steps) <==> NeverOvertakes(c, Start(c), steps)
  {
    StartOrder(c);
    InOrderIffNeverOvertakes(c, Start(c), steps);
  }

  // ------------------------------------------------------------------ few workers

  /** A worker is done with a batch before it is done with a later one. */
  lemma FirstInFirstOut(c: Config, s: State, early: Node, late: Node)
    requires Split(c) && OrderInv(c, s) && InConfig(c, early) && InConfig(c, late)
    requires WorkerOf(c, early) == WorkerOf(c, late) && early.batch < late.batch && Done(c, s, late)
    ensures Done(c, s, early)
  {
    hide Assigned;
    var w := WorkerOf(c, late);
    var x := s.workers[w];
    assert WorkerInv(c, s, w);
    AssignedIs(c, w, s.batch, s.sub);
    var trace := Trace(x);
    var k :| 0 <= k < |x.done| && x.done[k] == late;
    assert trace[k] == late && late in trace;
    assert early in trace;
    var j :| 0 <= j < |trace| && trace[j] == early;
    assert j < k;
    assert x.done[j] == early;
  }

  /** At most two workers, or at most one of them for each batch. */
  ghost predicate Narrow(c: Config) {
    c.workers <= 2 || forall b | 0 <= b < |c.batches| :: |c.batches[b]| <= 1
  }

  lemma PendingBound(c: Config, s: State, b: nat)
    requires b < |c.batches| && |c.batches[b]| <= 1
    ensures |Pending(c, s, b)| <= 1
  {
    assert Pending(c, s, b) <= {0};
    if Pending(c, s, b) != {} {
      assert Pending(c, s, b) == {0};
    }
  }

  /** Nothing is overtaken then: when a later batch is done, one of the two workers is through
      with the oldest. */
  lemma NarrowNeverOvertakes(c: Config, s: State, step: Step)
    requires Split(c) && OrderInv(c, s) && AckInv(c, s) && Narrow(c)
    ensures !Overtakes(s, step)
  {
    hide OrderInv;
    if Overtakes(s, step) {
      if c.workers > 2 {
        assert s.saved[0] in s.saved;
        PendingBound(c, s, s.saved[0].id - 1);
        assert false;
      }
      var oldest, next := s.saved[0], s.saved[1];
      assert oldest in s.saved && next in s.saved;
      var b, d := oldest.id - 1, next.id - 1;
      var i, j := TwoOf(Pending(c, s, b));
      var late := Node(d, 0);
      assert 0 !in Pending(c, s, d);
      assert Done(c, s, late);
      var early := if WorkerOf(c, Node(b, i)) == WorkerOf(c, late) then Node(b, i) else Node(b, j);
      FirstInFirstOut(c, s, early, late);
      assert false;
    }
  }

  lemma TwoOf(x: set<nat>) returns (i: nat, j: nat)
    requires |x| > 1
    ensures i in x && j in x && i != j
  {
    i :| i in x;
    var y := x - {i};
    assert |y| == |x| - 1;
    j :| j in y;
  }

  /** With at most two workers, or one for each batch, every run clears batches in order. */
  lemma {:induction false} NarrowRunsInOrder(c: Config, s: State, steps: seq<Step>)
    requires Plain(c) && Narrow(c) && OrderInv(c, s) && AckInv(c, s) && Contiguous(s) && Possible(c, s, steps)
    ensures NeverOvertakes(c, s, steps) && AlwaysInOrder(c, s, steps) && ClearedInOrder(c, Run(c, s, steps))
    decreases |steps|
  {
    hide OrderInv, AckInv, Enabled, Next, Contiguous, ClearedInOrder, Overtakes;
    ContiguousInOrder(c, s);
    if steps != [] {
      StepOrder(c, s, steps[0]);
      StepAcks(c, s, steps[0]);
      NarrowNeverOvertakes(c, s, steps[0]);
      StepContiguous(c, s, steps[0]);
      NarrowRunsInOrder(c, Next(c, s, steps[0]), steps[1..]);
    }
  }

  lemma NarrowInOrder(c: Config, s: State)
    requires Plain(c) && Narrow(c) && Reachable(c, s)
    ensures ClearedInOrder(c, s)
  {
    var steps :| Possible(c, Start(c), steps) && Run(c, Start(c), steps) == s;
    StartOrder(c);
    NarrowRunsInOrder(c, Start(c), steps);
  }

  // ------------------------------------------------------------------ three workers

  /** Two batches: all three workers have a part of the first, the second is for one of them. */
  function Three(e: Event): Config {
    Config(3, [[SubBatch(0, [e]), SubBatch(1, [e]), SubBatch(2, [e])], [SubBatch(0, [e])]], [1, 2], true, 0)
  }

  /** A state of the producer that is through with the second batch. */
  function HandedOut(first: Worker, second: Worker, saved: seq<Acks.Saved>): State {
    State(1, true, 1, true, false, false, [first, second, Worker([Node(0, 2)], Idle, [])], saved, [], false)
  }

  lemma FirstHandedOut(e: Event)
    ensures Reachable(Three(e), State(
      1, false, 0, true, false, false,
      [Worker([Node(0, 0)], Idle, []), Worker([Node(0, 1)], Idle, []), Worker([Node(0, 2)], Idle, [])],
      [Acks.Saved(1, 1, 3)], [], false))
  {
    hide Reachable;
    var c, idle := Three(e), Worker([], Idle, []);
    var x, y, z := Worker([Node(0, 0)], Idle, []), Worker([Node(0, 1)], Idle, []), Worker([Node(0, 2)], Idle, []);
    var saved := [Acks.Saved(1, 1, 3)];
    var s := Start(c);
    ReachableStart(c);
    ReachableNext(c, s, Take);
    assert Next(c, s, Take).workers == [idle, idle, idle];
    s := State(0, true, 0, true, false, false, [idle, idle, idle], saved, [], false);
    ReachableNext(c, s, Send);
    assert Next(c, s, Send).workers == [x, idle, idle] by { assert idle.list + [Node(0, 0)] == [Node(0, 0)]; }
    s := State(0, true, 1, true, false, false, [x, idle, idle], saved, [], false);
    ReachableNext(c, s, Send);
    assert Next(c, s, Send).workers == [x, y, idle] by { assert idle.list + [Node(0, 1)] == [Node(0, 1)]; }
    s := State(0, true, 2, true, false, false, [x, y, idle], saved, [], false);
    ReachableNext(c, s, Send);
    assert Next(c, s, Send).workers == [x, y, z] by { assert idle.list + [Node(0, 2)] == [Node(0, 2)]; }
    s := State(0, true, 3, true, false, false, [x, y, z], saved, [], false);
    ReachableNext(c, s, Finish);
  }

  lemma AllHandedOut(e: Event)
    ensures Reachable(Three(e), HandedOut(
      Worker([Node(0, 0), Node(1, 0)], Idle, []), Worker([Node(0, 1)], Idle, []), [Acks.Saved(1, 1, 3), Acks.Saved(2, 2, 1)]))
  {
    hide Reachable;
    var c, both := Three(e), [Acks.Saved(1, 1, 3), Acks.Saved(2, 2, 1)];
    var x, y, z := Worker([Node(0, 0)], Idle, []), Worker([Node(0, 1)], Idle, []), Worker([Node(0, 2)], Idle, []);
    FirstHandedOut(e);
    var s := State(1, false, 0, true, false, false, [x, y, z], [Acks.Saved(1, 1, 3)], [], false);
    ReachableNext(c, s, Take);
    assert Next(c, s, Take).saved == both;
    s := State(1, true, 0, true, false, false, [x, y, z], both, [], false);
    ReachableNext(c, s, Send);
    assert x.list + [Node(1, 0)] == [Node(0, 0), Node(1, 0)];
    assert Next(c, s, Send).workers == [Worker([Node(0, 0), Node(1, 0)], Idle, []), y, z];
  }

  /** A worker takes the head of its list, processes it and acknowledges it. */
  lemma WorksOff(c: Config, s: State, w: nat, n: Node, list: seq<Node>, done: seq<Node>, o: Acks.Outcome)
    requires Reachable(c, s) && w < |s.workers| && s.workers[w] == Worker([n] + list, Idle, done) && !s.stop && !s.freed
    requires Acks.Acknowledge(s.saved, n.batch + 1) == o
    ensures Reachable(c, SetWorker(s, w, Worker(list, Idle, done + [n])).(saved := o.list, cleared := s.cleared + o.cleared))
  {
    hide Reachable, Acks.Acknowledge;
    assert ([n] + list)[1..] == list;
    ReachableNext(c, s, Get(w));
    var s1 := SetWorker(s, w, Worker(list, Took(n), done));
    ReachableNext(c, s1, Process(w));
    var s2 := SetWorker(s, w, Worker(list, Processed(n), done));
    assert Next(c, s1, Process(w)).workers == s2.workers;
    ReachableNext(c, s2, Ack(w));
    assert Next(c, s2, Ack(w)).workers == s.workers[w := Worker(list, Idle, done + [n])];
  }

  lemma TwoWorkedOff(e: Event)
    ensures Reachable(Three(e), HandedOut(
      Worker([], Idle, [Node(0, 0), Node(1, 0)]), Worker([Node(0, 1)], Idle, []), [Acks.Saved(1, 1, 2), Acks.Saved(2, 2, 0)]))
  {
    hide Reachable;
    AllHandedOut(e);
    var c, y := Three(e), Worker([Node(0, 1)], Idle, []);
    var saved0 := [Acks.Saved(1, 1, 3), Acks.Saved(2, 2, 1)];
    var saved1 := [Acks.Saved(1, 1, 2), Acks.Saved(2, 2, 1)];
    var saved2 := [Acks.Saved(1, 1, 2), Acks.Saved(2, 2, 0)];
    var x0, x1, x2 := Worker([Node(0, 0), Node(1, 0)], Idle, []), Worker([Node(1, 0)], Idle, [Node(0, 0)]), Worker([], Idle, [Node(0, 0), Node(1, 0)]);
    AckOfFirst(saved0, saved1);
    var none: seq<Node> := [];
    assert [Node(0, 0)] + [Node(1, 0)] == [Node(0, 0), Node(1, 0)] && [Node(1, 0)] + none == [Node(1, 0)];
    var nothing: seq<Acks.Saved> := [];
    assert none + [Node(0, 0)] == [Node(0, 0)] && nothing + nothing == nothing;
    WorksOff(c, HandedOut(x0, y, saved0), 0, Node(0, 0), [Node(1, 0)], none, Acks.Outcome(saved1, []));
    assert HandedOut(x0, y, saved0).workers[0 := x1] == HandedOut(x1, y, saved1).workers;
    AckOfSecond(saved1, saved2);
    WorksOff(c, HandedOut(x1, y, saved1), 0, Node(1, 0), none, [Node(0, 0)], Acks.Outcome(saved2, []));
    assert HandedOut(x1, y, saved1).workers[0 := x2] == HandedOut(x2, y, saved2).workers;
  }

  lemma AckOfFirst(before: seq<Acks.Saved>, after: seq<Acks.Saved>)
    requires before == [Acks.Saved(1, 1, 3), Acks.Saved(2, 2, 1)] && after == [Acks.Saved(1, 1, 2), Acks.Saved(2, 2, 1)]
    ensures Acks.Acknowledge(before, 1) == Acks.Outcome(after, [])
  {
    assert Acks.Less(before, 1) == after;
    assert after[1..][0].required == 1;
    assert [after[0]] + after[1..] == after;
  }

  lemma AckOfSecond(before: seq<Acks.Saved>, after: seq<Acks.Saved>)
    requires before == [Acks.Saved(1, 1, 2), Acks.Saved(2, 2, 1)] && after == [Acks.Saved(1, 1, 2), Acks.Saved(2, 2, 0)]
    ensures Acks.Acknowledge(before, 2) == Acks.Outcome(after, [])
  {
    assert Acks.Less(before, 2) == after;
  }

  /** With three workers, a run clears the second batch while a part of the first is still
      waiting: the changelog forgets events that were not processed. */
  lemma ThreeWorkersOutOfOrder(e: Event) returns (s: State)
    ensures Plain(Three(e)) && Reachable(Three(e), s) && !ClearedInOrder(Three(e), s)
  {
    hide Reachable, OrderInv, AckInv, ClearedInOrder;
    TwoWorkedOff(e);
    var c, saved := Three(e), [Acks.Saved(1, 1, 2), Acks.Saved(2, 2, 0)];
    var x, n := Worker([], Idle, [Node(0, 0), Node(1, 0)]), Node(0, 1);
    s := HandedOut(x, Worker([n], Idle, []), saved);
    ReachableNext(c, s, Get(1));
    assert [n][1..] == [];
    assert Next(c, s, Get(1)).workers == HandedOut(x, Worker([], Took(n), []), saved).workers;
    s := HandedOut(x, Worker([], Took(n), []), saved);
    ReachableNext(c, s, Process(1));
    assert Next(c, s, Process(1)).workers == HandedOut(x, Worker([], Processed(n), []), saved).workers;
    s := HandedOut(x, Worker([], Processed(n), []), saved);
    assert Plain(c);
    ReachableAcks(c, s);
    ReachableNext(c, s, Ack(1));
    OvertakingIsOutOfOrder(c, s, Ack(1));
    s := Next(c, s, Ack(1));
  }
}
