/** What every run of the pipeline keeps: workers process what they were handed, in order, and
    the events of one identifier in the order of the source.
 */
module PipelineOrder {
  import opened Wrappers
  import opened Fsevent
  import opened Pipeline
  import Acks

  // ------------------------------------------------------------------ what was handed out

  /** Positions of the producer: a batch, and how many of its sub-batches were handed out. */
  predicate Position(c: Config, b: nat, k: nat) {
    b <= |c.batches| && k <= if b < |c.batches| then |c.batches[b]| else 0
  }

  /** The nodes that a worker was handed before a position, in order. */
  function Assigned(c: Config, w: nat, b: nat, k: nat): seq<Node>
    requires Position(c, b, k)
    decreases b, k
  {
    if k > 0 then
      Assigned(c, w, b, k - 1) + if c.batches[b][k - 1].worker == w then [Node(b, k - 1)] else []
    else if b > 0 then Assigned(c, w, b - 1, |c.batches[b - 1]|)
    else []
  }

  predicate Before(n: Node, b: nat, k: nat) {
    n.batch < b || (n.batch == b && n.sub < k)
  }

  /** A worker is handed exactly its sub-batches, oldest first and one a batch. */
  lemma {:induction false} AssignedIs(c: Config, w: nat, b: nat, k: nat)
    requires Split(c) && Position(c, b, k)
    ensures forall n | n in Assigned(c, w, b, k) :: InConfig(c, n) && WorkerOf(c, n) == w && Before(n, b, k)
    ensures forall n | InConfig(c, n) && WorkerOf(c, n) == w && Before(n, b, k) :: n in Assigned(c, w, b, k)
    ensures forall p, q | 0 <= p < q < |Assigned(c, w, b, k)| :: Assigned(c, w, b, k)[p].batch < Assigned(c, w, b, k)[q].batch
    decreases b, k
  {
    if k > 0 {
      AssignedIs(c, w, b, k - 1);
      var earlier := Assigned(c, w, b, k - 1);
      if c.batches[b][k - 1].worker == w {
        forall p | 0 <= p < |earlier| ensures earlier[p].batch < b {
          assert earlier[p] in earlier;
        }
      }
    } else if b > 0 {
      AssignedIs(c, w, b - 1, |c.batches[b - 1]|);
    }
  }

  function InHand(stage: Stage): seq<Node> {
    match stage
    case Idle => []
    case Took(n) => [n]
    case Processed(n) => [n]
    case Gone(lost, _) => if lost.Some? then [lost.value] else []
  }

  /** All a worker was handed, in the order in which it goes through it. */
  function Trace(x: Worker): seq<Node> {
    x.done + InHand(x.stage) + x.list
  }

  // ------------------------------------------------------------------ the invariant

  ghost predicate WorkerInv(c: Config, s: State, w: nat)
    requires w < |s.workers| && Position(c, s.batch, s.sub)
  {
    var x := s.workers[w];
    && Trace(x) == Assigned(c, w, s.batch, s.sub)
    && (x.stage.Gone? && x.stage.lost.None? && !s.stop ==> x.list == [] && !s.producing)
    && (x.stage.Gone? && x.stage.lost.Some? ==> x.stage.applied <= |EventsOf(c, x.stage.lost.value)|)
  }

  ghost predicate OrderInv(c: Config, s: State) {
    && |s.workers| == c.workers && Position(c, s.batch, s.sub)
    && (s.taken ==> s.batch < |c.batches|) && (!s.taken ==> s.sub == 0)
    && (s.clean ==> !s.producing && !s.taken && s.batch == |c.batches|)
    && (!s.producing && !s.clean ==> s.stop)
    && forall w | 0 <= w < |s.workers| :: WorkerInv(c, s, w)
  }

  lemma StartOrder(c: Config)
    ensures OrderInv(c, Start(c))
  {
  }

  lemma SendOrder(c: Config, s: State)
    requires OrderInv(c, s) && Enabled(c, s, Send)
    ensures OrderInv(c, Next(c, s, Send))
  {
    var t := Next(c, s, Send);
    forall v | 0 <= v < |t.workers| ensures WorkerInv(c, t, v) {
      assert WorkerInv(c, s, v);
      var x, y := s.workers[v], t.workers[v];
      if v == c.batches[s.batch][s.sub].worker {
        assert Trace(y) == Trace(x) + [Node(s.batch, s.sub)];
      }
    }
  }

  lemma FinishOrder(c: Config, s: State)
    requires OrderInv(c, s) && Enabled(c, s, Finish)
    ensures OrderInv(c, Next(c, s, Finish))
  {
    var t := Next(c, s, Finish);
    forall v | 0 <= v < |t.workers| ensures WorkerInv(c, t, v) {
      assert WorkerInv(c, s, v);
      assert Assigned(c, v, t.batch, 0) == Assigned(c, v, s.batch, s.sub);
    }
  }

  predicate OfWorker(step: Step) {
    step.Get? || step.Process? || step.Ack? || step.Break? || step.Leave?
  }

  lemma MovedTrace(x: Worker, step: Step)
    requires step.Get? || step.Leave? ==> x.stage.Idle?
    ensures Trace(Moved(x, step)) == Trace(x)
  {
    var y := Moved(x, step);
    match step
    case Get(_) => assert x.list != [] ==> [x.list[0]] + x.list[1..] == x.list;
    case Ack(_) => assert x.stage.Processed? ==> y.done + [] + y.list == x.done + [x.stage.node] + x.list;
    case _ =>
  }

  lemma WorkerStepOrder(c: Config, s: State, step: Step)
    requires OrderInv(c, s) && Enabled(c, s, step) && OfWorker(step)
    ensures OrderInv(c, Next(c, s, step))
  {
    hide Assigned, Trace;
    MovedTrace(s.workers[step.w], step);
    forall v | 0 <= v < |s.workers| ensures WorkerInv(c, Next(c, s, step), v) {
      assert WorkerInv(c, s, v);
    }
  }

  /** Every step keeps the invariant. */
  lemma StepOrder(c: Config, s: State, step: Step)
    requires OrderInv(c, s) && Enabled(c, s, step)
    ensures OrderInv(c, Next(c, s, step))
  {
    hide Assigned, Trace;
    match step
    case Send => SendOrder(c, s);
    case Finish => FinishOrder(c, s);
    case Take | SourceEnds | ProducerFails | ProducerStops =>
      forall v | 0 <= v < |s.workers| ensures WorkerInv(c, Next(c, s, step), v) {
        assert WorkerInv(c, s, v);
      }
    case _ => WorkerStepOrder(c, s, step);
  }

  lemma {:induction false} RunOrder(c: Config, s: State, steps: seq<Step>)
    requires OrderInv(c, s) && Possible(c, s, steps)
    ensures OrderInv(c, Run(c, s, steps))
    decreases |steps|
  {
    if steps != [] {
      StepOrder(c, s, steps[0]);
      RunOrder(c, Next(c, s, steps[0]), steps[1..]);
    }
  }

  // ------------------------------------------------------------------ events

  function OfId(events: seq<Event>, id: seq<byte>): seq<Event> {
    if events == [] then []
    else OfId(events[..|events| - 1], id) + if events[|events| - 1].id == id then [events[|events| - 1]] else []
  }

  lemma {:induction false} OfIdConcat(a: seq<Event>, b: seq<Event>, id: seq<byte>)
    ensures OfId(a + b, id) == OfId(a, id) + OfId(b, id)
    decreases |b|
  {
    if b == [] {
      assert a + b == a;
    } else {
      var n := |b| - 1;
      assert (a + b)[..|a| + n] == a + b[..n];
      OfIdConcat(a, b[..n], id);
    }
  }

  lemma {:induction false} OfIdNone(a: seq<Event>, id: seq<byte>)
    requires forall e | e in a :: e.id != id
    ensures OfId(a, id) == []
  {
    if a != [] {
      assert forall e | e in a[..|a| - 1] :: e in a;
      OfIdNone(a[..|a| - 1], id);
    }
  }

  /** Every event the deduplicator returns before a position. */
  function Events(c: Config, b: nat, k: nat): seq<Event>
    requires Position(c, b, k)
    decreases b, k
  {
    if k > 0 then Events(c, b, k - 1) + c.batches[b][k - 1].events
    else if b > 0 then Events(c, b - 1, |c.batches[b - 1]|)
    else []
  }

  function Flat(c: Config, nodes: seq<Node>): seq<Event> {
    if nodes == [] then [] else Flat(c, nodes[..|nodes| - 1]) + EventsOf(c, nodes[|nodes| - 1])
  }

  lemma {:induction false} FlatConcat(c: Config, a: seq<Node>, b: seq<Node>)
    ensures Flat(c, a + b) == Flat(c, a) + Flat(c, b)
    decreases |b|
  {
    if b == [] {
      assert a + b == a;
    } else {
      var n := |b| - 1;
      assert (a + b)[..|a| + n] == a + b[..n];
      FlatConcat(c, a, b[..n]);
    }
  }

  lemma FlatOfOne(c: Config, n: Node)
    ensures Flat(c, [n]) == EventsOf(c, n)
  {
    assert [n][..0] == [] && Flat(c, []) == [];
    assert Flat(c, [n]) == Flat(c, [n][..0]) + EventsOf(c, n);
  }

  /** Events go to the worker that their identifier routes to. */
  ghost predicate Routed(c: Config, route: seq<byte> -> nat) {
    forall n, e | InConfig(c, n) && e in EventsOf(c, n) :: route(e.id) == WorkerOf(c, n)
  }

  /** The events of an identifier all go through one worker, in their order. */
  lemma {:induction false} AssignedEvents(c: Config, route: seq<byte> -> nat, w: nat, b: nat, k: nat, id: seq<byte>)
    requires Routed(c, route) && Position(c, b, k) && route(id) == w
    ensures OfId(Flat(c, Assigned(c, w, b, k)), id) == OfId(Events(c, b, k), id)
    decreases b, k
  {
    hide OfId, Flat;
    if k > 0 {
      AssignedEvents(c, route, w, b, k - 1, id);
      var n := Node(b, k - 1);
      var earlier, events := Assigned(c, w, b, k - 1), EventsOf(c, n);
      OfIdConcat(Events(c, b, k - 1), events, id);
      if WorkerOf(c, n) == w {
        FlatConcat(c, earlier, [n]);
        FlatOfOne(c, n);
        OfIdConcat(Flat(c, earlier), events, id);
      } else {
        OfIdNone(events, id);
        assert earlier + [] == earlier;
      }
    } else if b > 0 {
      AssignedEvents(c, route, w, b - 1, |c.batches[b - 1]|, id);
    } else {
      NoEvents(c, id);
    }
  }

  ghost predicate IsPrefix(a: seq<Event>, b: seq<Event>) {
    |a| <= |b| && a == b[..|a|]
  }

  lemma {:induction false} EventsGrow(c: Config, b: nat, k: nat) returns (rest: seq<Event>)
    requires Position(c, b, k)
    ensures Events(c, |c.batches|, 0) == Events(c, b, k) + rest
    decreases |c.batches| - b, (if b < |c.batches| then |c.batches[b]| else 0) - k
  {
    if b == |c.batches| {
      rest := [];
    } else if k < |c.batches[b]| {
      rest := EventsGrow(c, b, k + 1);
      rest := c.batches[b][k].events + rest;
    } else {
      rest := EventsGrow(c, b + 1, 0);
    }
  }

  /** The events that a worker handed to its sink. */
  function Applied(c: Config, x: Worker): seq<Event> {
    Flat(c, x.done) +
    match x.stage
    case Processed(n) => EventsOf(c, n)
    case Gone(Some(n), k) => if k <= |EventsOf(c, n)| then EventsOf(c, n)[..k] else []
    case _ => []
  }

  /** What a worker applied and what it did not make up what it was handed. */
  lemma AppliedAndNot(c: Config, x: Worker)
    ensures Flat(c, Trace(x)) == Applied(c, x) + Unapplied(c, x)
  {
    hide Flat;
    var hand := InHand(x.stage);
    FlatConcat(c, x.done, hand);
    FlatConcat(c, x.done + hand, x.list);
    var done, events, list := Flat(c, x.done), Flat(c, hand), Flat(c, x.list);
    NoEvents(c, []);
    if hand != [] {
      FlatOfOne(c, hand[0]);
    }
    var m := match x.stage case Processed(_) => |events| case Gone(Some(_), k) => (if k <= |events| then k else 0) case _ => 0;
    assert Applied(c, x) == done + events[..m];
    assert Unapplied(c, x) == events[m..] + list;
    assert done + events + list == done + events[..m] + (events[m..] + list);
  }

  lemma {:induction false} OthersApplyNone(c: Config, route: seq<byte> -> nat, w: nat, b: nat, k: nat, id: seq<byte>)
    requires Routed(c, route) && Position(c, b, k) && route(id) != w
    ensures OfId(Flat(c, Assigned(c, w, b, k)), id) == []
    decreases b, k
  {
    hide OfId, Flat;
    if k > 0 {
      OthersApplyNone(c, route, w, b, k - 1, id);
      var n := Node(b, k - 1);
      var earlier := Assigned(c, w, b, k - 1);
      if WorkerOf(c, n) == w {
        FlatConcat(c, earlier, [n]);
        FlatOfOne(c, n);
        OfIdConcat(Flat(c, earlier), EventsOf(c, n), id);
        OfIdNone(EventsOf(c, n), id);
      } else {
        assert earlier + [] == earlier;
      }
    } else if b > 0 {
      OthersApplyNone(c, route, w, b - 1, |c.batches[b - 1]|, id);
    } else {
      NoEvents(c, id);
    }
  }

  lemma NoEvents(c: Config, id: seq<byte>)
    ensures Flat(c, []) == [] && OfId([], id) == []
  {
  }

  // ------------------------------------------------------------------ the main results

  lemma ReachableOrder(c: Config, s: State)
    requires Reachable(c, s)
    ensures OrderInv(c, s)
  {
    var steps :| Possible(c, Start(c), steps) && Run(c, Start(c), steps) == s;
    StartOrder(c);
    RunOrder(c, Start(c), steps);
  }

  /** In every run, what was applied for an identifier is a prefix of its events in the order of
      the source, and only one worker applies any. */
  lemma AppliedInOrder(c: Config, route: seq<byte> -> nat, s: State, w: nat, id: seq<byte>)
    requires Routed(c, route) && Reachable(c, s) && w < |s.workers|
    ensures route(id) == w ==> IsPrefix(OfId(Applied(c, s.workers[w]), id), OfId(Events(c, |c.batches|, 0), id))
    ensures route(id) != w ==> OfId(Applied(c, s.workers[w]), id) == []
  {
    hide OfId, Flat, Applied, Unapplied, Events, Assigned, Trace;
    ReachableOrder(c, s);
    assert WorkerInv(c, s, w);
    var x := s.workers[w];
    AppliedAndNot(c, x);
    OfIdConcat(Applied(c, x), Unapplied(c, x), id);
    if route(id) == w {
      AssignedEvents(c, route, w, s.batch, s.sub, id);
      var more := EventsGrow(c, s.batch, s.sub);
      OfIdConcat(Events(c, s.batch, s.sub), more, id);
    } else {
      OthersApplyNone(c, route, w, s.batch, s.sub, id);
    }
  }

  /** `feed` returns 0: the source ended, the workers were joined, nobody asked to stop. */
  ghost predicate Succeeded(s: State) {
    s.clean && !s.stop && forall w | 0 <= w < |s.workers| :: s.workers[w].stage.Gone?
  }

  /** No worker gave up in the middle of a sub-batch. */
  ghost predicate NoneLost(s: State) {
    forall w | 0 <= w < |s.workers| :: s.workers[w].stage.Gone? ==> s.workers[w].stage.lost.None?
  }

  // ------------------------------------------------------------------ which runs return 0

  /** A failure other than that of a sink with `ENODATA`. */
  predicate Loud(step: Step) {
    step.ProducerFails? || (step.Break? && !step.quiet)
  }

  predicate Leaves(step: Step, w: nat) {
    step == Leave(w) || (step.Break? && step.w == w)
  }

  predicate AnyLoud(steps: seq<Step>) {
    exists i | 0 <= i < |steps| :: Loud(steps[i])
  }

  predicate AnyEnd(steps: seq<Step>) {
    exists i | 0 <= i < |steps| :: steps[i].SourceEnds?
  }

  predicate AnyLeaves(steps: seq<Step>, w: nat) {
    exists i | 0 <= i < |steps| :: Leaves(steps[i], w)
  }

  predicate AnyBreak(steps: seq<Step>, w: nat) {
    exists i | 0 <= i < |steps| :: steps[i].Break? && steps[i].w == w
  }

  predicate GaveUp(x: Worker) {
    x.stage.Gone? && x.stage.lost.Some?
  }

  lemma AnyFirst(steps: seq<Step>, w: nat)
    requires steps != []
    ensures AnyLoud(steps) <==> Loud(steps[0]) || AnyLoud(steps[1..])
    ensures AnyEnd(steps) <==> steps[0].SourceEnds? || AnyEnd(steps[1..])
    ensures AnyLeaves(steps, w) <==> Leaves(steps[0], w) || AnyLeaves(steps[1..], w)
    ensures AnyBreak(steps, w) <==> (steps[0].Break? && steps[0].w == w) || AnyBreak(steps[1..], w)
  {
    assert steps == [steps[0]] + steps[1..];
    assert forall i | 0 <= i < |steps| - 1 :: steps[1..][i] == steps[i + 1];
    assert forall i | 0 < i < |steps| :: steps[1..][i - 1] == steps[i];
  }

  lemma StepTells(c: Config, s: State, step: Step)
    requires Enabled(c, s, step)
    ensures Next(c, s, step).stop <==> s.stop || Loud(step)
    ensures Next(c, s, step).clean <==> s.clean || step.SourceEnds?
    ensures |Next(c, s, step).workers| == |s.workers|
  {
  }

  lemma StepTellsWorker(c: Config, s: State, step: Step, w: nat)
    requires Enabled(c, s, step) && w < |s.workers|
    ensures |Next(c, s, step).workers| == |s.workers|
    ensures var x, y := s.workers[w], Next(c, s, step).workers[w];
            (y.stage.Gone? <==> x.stage.Gone? || Leaves(step, w)) && (GaveUp(y) <==> GaveUp(x) || (step.Break? && step.w == w))
  {
    if OfWorker(step) {
      NextOfWorker(c, s, step);
      hide Next, Enabled, Moved;
    }
  }

  lemma NextOfWorker(c: Config, s: State, step: Step)
    requires Enabled(c, s, step) && OfWorker(step)
    ensures Next(c, s, step).workers == s.workers[step.w := Moved(s.workers[step.w], step)]
    ensures var x, y := s.workers[step.w], Moved(s.workers[step.w], step);
            && !x.stage.Gone? && (y.stage.Gone? <==> step.Leave? || step.Break?) && (GaveUp(y) <==> step.Break?)
  {
  }

  /** What the steps of a run tell of the state after it. */
  lemma {:induction false} RunTells(c: Config, s: State, steps: seq<Step>)
    requires Possible(c, s, steps)
    ensures Run(c, s, steps).stop <==> s.stop || AnyLoud(steps)
    ensures Run(c, s, steps).clean <==> s.clean || AnyEnd(steps)
    ensures |Run(c, s, steps).workers| == |s.workers|
    decreases |steps|
  {
    hide Next, Enabled;
    if steps != [] {
      AnyFirst(steps, 0);
      StepTells(c, s, steps[0]);
      RunTells(c, Next(c, s, steps[0]), steps[1..]);
    }
  }

  lemma {:induction false} RunTellsWorker(c: Config, s: State, steps: seq<Step>, w: nat)
    requires Possible(c, s, steps) && w < |s.workers|
    ensures |Run(c, s, steps).workers| == |s.workers|
    ensures Run(c, s, steps).workers[w].stage.Gone? <==> s.workers[w].stage.Gone? || AnyLeaves(steps, w)
    ensures GaveUp(Run(c, s, steps).workers[w]) <==> GaveUp(s.workers[w]) || AnyBreak(steps, w)
    decreases |steps|
  {
    hide Next, Enabled;
    if steps != [] {
      AnyFirst(steps, w);
      StepTellsWorker(c, s, steps[0], w);
      RunTellsWorker(c, Next(c, s, steps[0]), steps[1..], w);
    }
  }

  /** `feed` returns 0 exactly after the runs in which the source ended, every worker left, and
      nothing failed but sinks with `ENODATA`. A worker loses a sub-batch exactly when it breaks off. */
  lemma SucceededIff(c: Config, steps: seq<Step>)
    requires Possible(c, Start(c), steps)
    ensures Succeeded(Run(c, Start(c), steps)) <==>
            AnyEnd(steps) && !AnyLoud(steps) && forall w | 0 <= w < c.workers :: AnyLeaves(steps, w)
    ensures NoneLost(Run(c, Start(c), steps)) <==> forall w | 0 <= w < c.workers :: !AnyBreak(steps, w)
  {
    var t := Run(c, Start(c), steps);
    RunTells(c, Start(c), steps);
    forall w | 0 <= w < c.workers
      ensures t.workers[w].stage.Gone? <==> AnyLeaves(steps, w)
      ensures GaveUp(t.workers[w]) <==> AnyBreak(steps, w)
    {
      RunTellsWorker(c, Start(c), steps, w);
    }
  }

  /** What a worker was handed and did not apply: the rest of the sub-batch that it gave up in, and
      its list. */
  function Unapplied(c: Config, x: Worker): seq<Event> {
    (match x.stage
     case Took(n) => EventsOf(c, n)
     case Gone(Some(n), k) => if k <= |EventsOf(c, n)| then EventsOf(c, n)[k..] else EventsOf(c, n)
     case _ => [])
    + Flat(c, x.list)
  }

  lemma {:induction false} FoundById(events: seq<Event>, e: Event)
    requires e in events
    ensures OfId(events, e.id) != []
  {
    var n := |events| - 1;
    if events[n] != e {
      assert events == events[..n] + [events[n]];
      FoundById(events[..n], e);
    }
  }

  /** What a worker has on its hands is routed to it. */
  lemma UnappliedIsRouted(c: Config, route: seq<byte> -> nat, s: State, w: nat, e: Event)
    requires Routed(c, route) && OrderInv(c, s) && w < |s.workers| && e in Unapplied(c, s.workers[w])
    ensures route(e.id) == w
  {
    hide OfId, Flat, Assigned;
    var x := s.workers[w];
    assert WorkerInv(c, s, w);
    AppliedAndNot(c, x);
    if route(e.id) != w {
      OthersApplyNone(c, route, w, s.batch, s.sub, e.id);
      OfIdConcat(Applied(c, x), Unapplied(c, x), e.id);
      FoundById(Unapplied(c, x), e);
    }
  }

  /** In a run without error, the events of an identifier are all applied exactly when none of them
      is among what its worker left. */
  lemma AppliedIffNotLeft(c: Config, route: seq<byte> -> nat, s: State, id: seq<byte>)
    requires Routed(c, route) && Reachable(c, s) && route(id) < |s.workers| && Succeeded(s)
    ensures OfId(Applied(c, s.workers[route(id)]), id) == OfId(Events(c, |c.batches|, 0), id)
            <==> OfId(Unapplied(c, s.workers[route(id)]), id) == []
  {
    hide OfId, Flat, Events, Assigned, Applied, Unapplied;
    ReachableOrder(c, s);
    var w := route(id);
    var x := s.workers[w];
    assert WorkerInv(c, s, w);
    AppliedAndNot(c, x);
    OfIdConcat(Applied(c, x), Unapplied(c, x), id);
    AssignedEvents(c, route, w, s.batch, s.sub, id);
  }

  /** A run without error applied all events of every identifier exactly when no worker left any:
      one that fails with `ENODATA` is taken for one that has nothing left to do. */
  lemma AllApplied(c: Config, route: seq<byte> -> nat, s: State)
    requires Routed(c, route) && Reachable(c, s) && Succeeded(s)
    ensures (forall id | route(id) < |s.workers| ::
               OfId(Applied(c, s.workers[route(id)]), id) == OfId(Events(c, |c.batches|, 0), id))
            <==> forall w | 0 <= w < |s.workers| :: Unapplied(c, s.workers[w]) == []
    ensures NoneLost(s) ==> forall w | 0 <= w < |s.workers| :: Unapplied(c, s.workers[w]) == []
  {
    hide OfId, Flat, Events, Assigned, Applied, Unapplied;
    ReachableOrder(c, s);
    forall id | route(id) < |s.workers|
      ensures OfId(Applied(c, s.workers[route(id)]), id) == OfId(Events(c, |c.batches|, 0), id)
              <==> OfId(Unapplied(c, s.workers[route(id)]), id) == []
    {
      AppliedIffNotLeft(c, route, s, id);
    }
    forall id ensures OfId([], id) == [] {
      NoEvents(c, id);
    }
    forall w | 0 <= w < |s.workers| && Unapplied(c, s.workers[w]) != []
      ensures exists id :: route(id) == w && OfId(Unapplied(c, s.workers[w]), id) != []
    {
      var e := Unapplied(c, s.workers[w])[0];
      UnappliedIsRouted(c, route, s, w, e);
      FoundById(Unapplied(c, s.workers[w]), e);
    }
    forall w | 0 <= w < |s.workers| && NoneLost(s) ensures Unapplied(c, s.workers[w]) == [] {
      assert WorkerInv(c, s, w);
      NothingLeft(c, s.workers[w]);
    }
  }

  lemma NothingLeft(c: Config, x: Worker)
    requires x.list == [] && x.stage.Gone? && x.stage.lost.None?
    ensures Unapplied(c, x) == []
  {
  }

  /** A worker that fails with `ENODATA` makes a run end without error although nothing was
      applied. */
  lemma QuietFailureLosesEvents(e: Event) returns (c: Config, s: State)
    ensures Reachable(c, s) && Succeeded(s) && c.batches == [[SubBatch(0, [e])]]
    ensures |s.workers| == 1 && Applied(c, s.workers[0]) == [] && Unapplied(c, s.workers[0]) == [e]
  {
    hide Reachable, Applied, Unapplied;
    var n, saved := Node(0, 0), [Acks.Saved(1, 0, 1)];
    assert [n][1..] == [];
    c, s := HandedToOne(e);
    ReachableNext(c, s, SourceEnds);
    s := State(1, false, 0, false, true, false, [Worker([n], Idle, [])], saved, [], false);
    ReachableNext(c, s, Get(0));
    assert Next(c, s, Get(0)).workers == [Worker([], Took(n), [])];
    s := State(1, false, 0, false, true, false, [Worker([], Took(n), [])], saved, [], false);
    ReachableNext(c, s, Break(0, 0, true));
    assert Next(c, s, Break(0, 0, true)).workers == [Worker([], Gone(Some(n), 0), [])];
    s := State(1, false, 0, false, true, false, [Worker([], Gone(Some(n), 0), [])], saved, [], false);
    NothingApplied(c, s.workers[0], n);
  }

  /** One event, handed to the only worker. */
  lemma HandedToOne(e: Event) returns (c: Config, s: State)
    ensures c == Config(1, [[SubBatch(0, [e])]], [0], true, 0) && Reachable(c, s)
    ensures s == State(1, false, 0, true, false, false, [Worker([Node(0, 0)], Idle, [])], [Acks.Saved(1, 0, 1)], [], false)
  {
    hide Reachable;
    var n, saved := Node(0, 0), [Acks.Saved(1, 0, 1)];
    var none: seq<Node> := [];
    assert none + [n] == [n];
    c := Config(1, [[SubBatch(0, [e])]], [0], true, 0);
    s := Start(c);
    ReachableStart(c);
    ReachableNext(c, s, Take);
    s := State(0, true, 0, true, false, false, [Worker([], Idle, [])], saved, [], false);
    ReachableNext(c, s, Send);
    assert Next(c, s, Send).workers == [Worker([n], Idle, [])];
    s := State(0, true, 1, true, false, false, [Worker([n], Idle, [])], saved, [], false);
    ReachableNext(c, s, Finish);
    s := State(1, false, 0, true, false, false, [Worker([n], Idle, [])], saved, [], false);
  }

  lemma NothingApplied(c: Config, x: Worker, n: Node)
    requires x.done == [] && x.stage == Gone(Some(n), 0) && x.list == []
    ensures Applied(c, x) == [] && Unapplied(c, x) == EventsOf(c, n)
  {
  }

  // ------------------------------------------------------------------ without deduplication

  /** Every event is a batch of its own. */
  function Singles(source: seq<Event>, route: seq<byte> -> nat): seq<seq<SubBatch>> {
    seq(|source|, i requires 0 <= i < |source| => [SubBatch(route(source[i].id), [source[i]])])
  }

  lemma {:induction false} SinglesEvents(c: Config, source: seq<Event>, route: seq<byte> -> nat, b: nat)
    requires c.batches == Singles(source, route) && b <= |source|
    ensures Events(c, b, 0) == source[..b]
  {
    if b > 0 {
      SinglesEvents(c, source, route, b - 1);
      assert |c.batches[b - 1]| == 1 && Events(c, b, 0) == Events(c, b - 1, 1);
      assert Events(c, b - 1, 1) == Events(c, b - 1, 0) + [source[b - 1]];
    }
  }

  /** Without deduplication, the events are those of the source. */
  lemma WithoutDeduplication(source: seq<Event>, route: seq<byte> -> nat, workers: nat, indexes: seq<nat>, start: nat)
    requires |indexes| == |source| && forall e | e in source :: route(e.id) < workers
    ensures var c := Config(workers, Singles(source, route), indexes, false, start);
            Split(c) && Routed(c, route) && Events(c, |c.batches|, 0) == source
  {
    var c := Config(workers, Singles(source, route), indexes, false, start);
    SinglesEvents(c, source, route, |source|);
    assert source[..|source|] == source;
    assert forall i | 0 <= i < |source| :: source[i] in source;
  }
}
