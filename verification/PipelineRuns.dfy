/** Runs of the pipeline as a whole: each comes to an end, none gets stuck, and one in which nothing
    fails applies and acknowledges everything.
 */
module PipelineRuns {
  import opened Wrappers
  import opened Fsevent
  import opened Pipeline
  import opened PipelineOrder
  import opened PipelineAcks
  import Acks

  // ------------------------------------------------------------------ every run is short

  /** The steps that a batch and its sub-batches take from some batch on. */
  function BatchSteps(c: Config, b: nat): nat
    requires b <= |c.batches|
    decreases |c.batches| - b
  {
    if b == |c.batches| then 0 else 2 + 4 * |c.batches[b]| + BatchSteps(c, b + 1)
  }

  function WorkerSteps(x: Worker): nat {
    3 * |x.list| +
    match x.stage
    case Idle => 1
    case Took(_) => 3
    case Processed(_) => 2
    case Gone(_, _) => 0
  }

  function AllWorkerSteps(workers: seq<Worker>): nat {
    if workers == [] then 0 else AllWorkerSteps(workers[..|workers| - 1]) + WorkerSteps(workers[|workers| - 1])
  }

  /** No more steps than these are left. */
  function StepsLeft(c: Config, s: State): nat
    requires Position(c, s.batch, s.sub) && (s.taken ==> s.batch < |c.batches|)
  {
    (if s.freed then 0 else 1)
    + (if s.producing then 1 + BatchSteps(c, s.batch) - (if s.taken then 1 + 4 * s.sub else 0) else 0)
    + AllWorkerSteps(s.workers)
  }

  lemma {:induction false} WorkerChanges(workers: seq<Worker>, w: nat, x: Worker)
    requires w < |workers|
    ensures AllWorkerSteps(workers[w := x]) + WorkerSteps(workers[w]) == AllWorkerSteps(workers) + WorkerSteps(x)
  {
    var n := |workers| - 1;
    if w == n {
      assert workers[w := x][..n] == workers[..n];
    } else {
      assert workers[w := x][..n] == workers[..n][w := x];
      WorkerChanges(workers[..n], w, x);
    }
  }

  lemma MovedWorks(c: Config, s: State, step: Step)
    requires Enabled(c, s, step) && OfWorker(step)
    ensures WorkerSteps(Moved(s.workers[step.w], step)) < WorkerSteps(s.workers[step.w])
    ensures Next(c, s, step).workers == s.workers[step.w := Moved(s.workers[step.w], step)]
    ensures var t := Next(c, s, step);
            t.batch == s.batch && t.sub == s.sub && t.taken == s.taken && t.producing == s.producing && t.freed == s.freed
  {
  }

  /** Every step leaves fewer. */
  lemma StepLowers(c: Config, s: State, step: Step)
    requires OrderInv(c, s) && Enabled(c, s, step)
    ensures OrderInv(c, Next(c, s, step)) && StepsLeft(c, Next(c, s, step)) < StepsLeft(c, s)
  {
    StepOrder(c, s, step);
    hide WorkerInv, WorkerSteps, AllWorkerSteps;
    if OfWorker(step) {
      hide Next, Moved, Enabled;
      MovedWorks(c, s, step);
      WorkerChanges(s.workers, step.w, Moved(s.workers[step.w], step));
    } else if step.Send? {
      var w := c.batches[s.batch][s.sub].worker;
      var x := s.workers[w];
      var y := x.(list := x.list + [Node(s.batch, s.sub)]);
      WorkerChanges(s.workers, w, y);
      LongerList(x, Node(s.batch, s.sub));
    }
  }

  lemma LongerList(x: Worker, n: Node)
    ensures WorkerSteps(x.(list := x.list + [n])) == WorkerSteps(x) + 3
  {
  }

  lemma {:induction false} RunLowers(c: Config, s: State, steps: seq<Step>)
    requires OrderInv(c, s) && Possible(c, s, steps)
    ensures OrderInv(c, Run(c, s, steps)) && |steps| + StepsLeft(c, Run(c, s, steps)) <= StepsLeft(c, s)
    decreases |steps|
  {
    hide OrderInv, Enabled, Next, StepsLeft;
    OrderIsPosition(c, s);
    if steps != [] {
      StepLowers(c, s, steps[0]);
      RunLowers(c, Next(c, s, steps[0]), steps[1..]);
    } else {
      assert Run(c, s, steps) == s;
    }
    OrderIsPosition(c, Run(c, s, steps));
  }

  lemma OrderIsPosition(c: Config, s: State)
    requires OrderInv(c, s)
    ensures Position(c, s.batch, s.sub) && (s.taken ==> s.batch < |c.batches|)
  {
  }

  lemma {:induction false} IdleSteps(n: nat)
    ensures AllWorkerSteps(seq(n, _ => Worker([], Idle, []))) == n
  {
    var workers := seq(n, _ => Worker([], Idle, []));
    if n > 0 {
      assert workers[..n - 1] == seq(n - 1, _ => Worker([], Idle, []));
      IdleSteps(n - 1);
    }
  }

  /** Every run ends: one step for each worker, two for each batch and four for each sub-batch, and
      two more, are the most it can take. */
  lemma RunsEnd(c: Config, steps: seq<Step>)
    requires Possible(c, Start(c), steps)
    ensures |steps| <= c.workers + BatchSteps(c, 0) + 2
  {
    StartOrder(c);
    RunLowers(c, Start(c), steps);
    IdleSteps(c.workers);
  }

  // ------------------------------------------------------------------ none is stuck

  /** The producer and all workers are through. */
  ghost predicate Over(s: State) {
    !s.producing && forall w | 0 <= w < |s.workers| :: s.workers[w].stage.Gone?
  }

  predicate Fails(step: Step) {
    step.ProducerFails? || step.Break?
  }

  /** Until it is over, there is always something to do that does not take a failure. */
  lemma NotStuck(c: Config, s: State)
    requires Split(c) && OrderInv(c, s) && !s.freed && !Over(s)
    ensures exists step :: Enabled(c, s, step) && !Fails(step)
  {
    hide Assigned, Trace;
    if s.producing {
      var step :=
        if !s.taken then (if s.batch < |c.batches| then Take else SourceEnds)
        else if s.stop then ProducerStops
        else if s.sub < |c.batches[s.batch]| then Send else Finish;
      assert Enabled(c, s, step);
    } else {
      var w :| 0 <= w < |s.workers| && !s.workers[w].stage.Gone?;
      var x := s.workers[w];
      var step :=
        if x.stage.Took? then Process(w)
        else if x.stage.Processed? then Ack(w)
        else if s.stop || x.list == [] then Leave(w) else Get(w);
      assert Enabled(c, s, step);
    }
  }

  // ------------------------------------------------------------------ runs without a failure

  lemma {:induction false} NeverFreed(c: Config, s: State, steps: seq<Step>)
    requires Plain(c) && !s.freed && Possible(c, s, steps)
    ensures !Run(c, s, steps).freed
    decreases |steps|
  {
    if steps != [] {
      NeverFreed(c, Next(c, s, steps[0]), steps[1..]);
    }
  }

  ghost predicate NothingFails(steps: seq<Step>) {
    forall i | 0 <= i < |steps| :: !Fails(steps[i])
  }

  /** The run cannot go on without a failure. */
  ghost predicate Maximal(c: Config, steps: seq<Step>)
    requires Possible(c, Start(c), steps)
  {
    forall step | Enabled(c, Run(c, Start(c), steps), step) :: Fails(step)
  }

  /** When nothing fails, every run that goes on as long as it can returns 0, and then every event
      was applied and every batch acknowledged. */
  lemma NothingFailsSucceeds(c: Config, route: seq<byte> -> nat, steps: seq<Step>)
    requires Plain(c) && Routed(c, route) && Possible(c, Start(c), steps) && NothingFails(steps) && Maximal(c, steps)
    ensures var s := Run(c, Start(c), steps);
            && Succeeded(s)
            && (forall id | route(id) < |s.workers| ::
                  OfId(Applied(c, s.workers[route(id)]), id) == OfId(Events(c, |c.batches|, 0), id))
            && s.saved == [] && forall id | 1 <= id <= |c.batches| :: Cleared(s, id)
  {
    hide Applied, Unapplied, Events, Enabled, OfId, Routed, Cleared;
    var s := Run(c, Start(c), steps);
    assert Reachable(c, s);
    ReachableOrder(c, s);
    NeverFreed(c, Start(c), steps);
    assert Over(s) by {
      if !Over(s) {
        NotStuck(c, s);
      }
    }
    assert !AnyLoud(steps) && forall w :: !AnyBreak(steps, w);
    RunTells(c, Start(c), steps);
    SucceededIff(c, steps);
    assert Succeeded(s) && NoneLost(s);
    AllApplied(c, route, s);
    AllCleared(c, s);
  }
}
