/** One producer hands batches of events to workers, each with a list of its own; the workers
    process their lists in order and acknowledge what they processed.

    The threads are interleaved: a run is any sequence of steps, each enabled when it is taken.
 */
module Pipeline {
  import opened Wrappers
  import opened Fsevent
  import Acks

  /** The events that one worker has to process for one batch. */
  datatype SubBatch = SubBatch(worker: nat, events: seq<Event>)

  /** What the deduplicator returns, in order, and for each batch the changelog record that the
      source saves with it. Reading started at the record `start`. */
  datatype Config = Config(workers: nat, batches: seq<seq<SubBatch>>, indexes: seq<nat>, dedup: bool, start: nat)

  /** Without deduplication, a batch of the same record as the one before shares its element. */
  predicate Shared(c: Config, b: nat)
    requires b < |c.indexes|
  {
    !c.dedup && c.indexes[b] == if b == 0 then c.start else c.indexes[b - 1]
  }

  /** A sub-batch on a list: its batch, and its place there. */
  datatype Node = Node(batch: nat, sub: nat)

  datatype Stage =
    | Idle
    | Took(node: Node)
    | Processed(node: Node)
    | Gone(lost: Option<Node>, applied: nat) // left in the middle of a sub-batch, or between two

  datatype Worker = Worker(list: seq<Node>, stage: Stage, done: seq<Node>)

  datatype State = State(
    batch: nat,                // the batch at hand; the producer's identifier is one more
    taken: bool,               // whether it was obtained
    sub: nat,                  // how many of its sub-batches were handed out
    producing: bool,
    clean: bool,               // whether the producer saw the end of the source
    stop: bool,                // should_stop
    workers: seq<Worker>,
    saved: seq<Acks.Saved>,    // the source's list of batches
    cleared: seq<Acks.Saved>,  // what it acknowledged, in order
    freed: bool)               // the source wrote to an element that was gone: anything may follow

  // ------------------------------------------------------------------ steps

  datatype Step =
    | Take | Send | Finish | SourceEnds | ProducerFails | ProducerStops
    | Get(w: nat) | Process(w: nat) | Ack(w: nat) | Break(w: nat, applied: nat, quiet: bool) | Leave(w: nat)

  function WorkerOf(c: Config, n: Node): nat
    requires InConfig(c, n)
  {
    c.batches[n.batch][n.sub].worker
  }

  predicate InConfig(c: Config, n: Node) {
    n.batch < |c.batches| && n.sub < |c.batches[n.batch]|
  }

  function EventsOf(c: Config, n: Node): seq<Event> {
    if InConfig(c, n) then c.batches[n.batch][n.sub].events else []
  }

  /** Batches are split by worker, and no sub-batch is there for nothing. */
  ghost predicate Split(c: Config) {
    && |c.indexes| == |c.batches|
    && (forall b | 0 <= b < |c.batches| :: c.batches[b] != [])
    && (forall b, i | 0 <= b < |c.batches| && 0 <= i < |c.batches[b]| :: c.batches[b][i].worker < c.workers)
    && (forall b, i, j | 0 <= b < |c.batches| && 0 <= i < j < |c.batches[b]| ::
          c.batches[b][i].worker != c.batches[b][j].worker)
  }

  function Start(c: Config): State {
    State(0, false, 0, true, false, false, seq(c.workers, _ => Worker([], Idle, [])), [], [], false)
  }

  function SetWorker(s: State, w: nat, x: Worker): State
    requires w < |s.workers|
  {
    s.(workers := s.workers[w := x])
  }

  /** `should_stop` is tested before a sub-batch is handed out or taken, and may be raised in
      between, so that neither step depends on it. */
  predicate Enabled(c: Config, s: State, step: Step) {
    !s.freed &&
    match step
    case Take => s.producing && !s.taken && s.batch < |c.batches| && s.batch < |c.indexes|
    case Send => s.producing && s.taken && s.batch < |c.batches| && s.sub < |c.batches[s.batch]|
                 && c.batches[s.batch][s.sub].worker < |s.workers|
    case Finish => s.producing && s.taken && s.batch < |c.batches| && s.sub == |c.batches[s.batch]|
    case SourceEnds => s.producing && !s.taken && s.batch == |c.batches|
    case ProducerFails => s.producing
    case ProducerStops => s.producing && s.taken && s.stop
    case Get(w) => w < |s.workers| && s.workers[w].stage.Idle? && s.workers[w].list != []
    case Process(w) => w < |s.workers| && s.workers[w].stage.Took?
    case Ack(w) => w < |s.workers| && s.workers[w].stage.Processed?
    case Break(w, k, _) =>
      && w < |s.workers|
      && ((s.workers[w].stage.Took? && k <= |EventsOf(c, s.workers[w].stage.node)|)
          || (s.workers[w].stage.Processed? && k == |EventsOf(c, s.workers[w].stage.node)|))
    case Leave(w) =>
      w < |s.workers| && s.workers[w].stage.Idle? && (s.stop || (s.workers[w].list == [] && !s.producing))
  }

  /** What a step makes of the worker that takes it. */
  function Moved(x: Worker, step: Step): Worker {
    match step
    case Get(_) => if x.list == [] then x else Worker(x.list[1..], Took(x.list[0]), x.done)
    case Process(_) => if x.stage.Took? then Worker(x.list, Processed(x.stage.node), x.done) else x
    case Ack(_) => if x.stage.Processed? then Worker(x.list, Idle, x.done + [x.stage.node]) else x
    case Break(_, k, _) =>
      if x.stage.Took? || x.stage.Processed? then Worker(x.list, Gone(Some(x.stage.node), k), x.done) else x
    case Leave(_) => Worker(x.list, Gone(None, 0), x.done)
    case _ => x
  }

  function Next(c: Config, s: State, step: Step): State
    requires Enabled(c, s, step)
  {
    match step
    case Take =>
      if !Shared(c, s.batch) then
        s.(taken := true, sub := 0,
           saved := s.saved + [Acks.Saved(s.batch + 1, c.indexes[s.batch], |c.batches[s.batch]|)])
      else if Acks.Current(s.saved, s.batch + 1) then
        s.(taken := true, sub := 0, saved := Acks.SavedEvent(s.saved, s.batch + 1, c.indexes[s.batch], true))
      else s.(freed := true)
    case Send =>
      var w := c.batches[s.batch][s.sub].worker;
      SetWorker(s, w, s.workers[w].(list := s.workers[w].list + [Node(s.batch, s.sub)])).(sub := s.sub + 1)
    case Finish => s.(batch := s.batch + 1, taken := false, sub := 0)
    case SourceEnds => s.(producing := false, clean := true)
    case ProducerFails => s.(producing := false, stop := true)
    case ProducerStops => s.(producing := false)
    case Ack(w) =>
      var acked := Acks.Acknowledge(s.saved, s.workers[w].stage.node.batch + 1);
      SetWorker(s, w, Moved(s.workers[w], step)).(saved := acked.list, cleared := s.cleared + acked.cleared)
    case Break(w, _, quiet) => SetWorker(s, w, Moved(s.workers[w], step)).(stop := s.stop || !quiet)
    case _ => SetWorker(s, step.w, Moved(s.workers[step.w], step))
  }

  ghost predicate Possible(c: Config, s: State, steps: seq<Step>)
    decreases |steps|
  {
    steps == [] || (Enabled(c, s, steps[0]) && Possible(c, Next(c, s, steps[0]), steps[1..]))
  }

  ghost function Run(c: Config, s: State, steps: seq<Step>): State
    requires Possible(c, s, steps)
    decreases |steps|
  {
    if steps == [] then s else Run(c, Next(c, s, steps[0]), steps[1..])
  }

  /** Some run ends in `s`. */
  ghost predicate Reachable(c: Config, s: State) {
    exists steps :: Possible(c, Start(c), steps) && Run(c, Start(c), steps) == s
  }

  lemma {:induction false} RunFurther(c: Config, s: State, steps: seq<Step>, step: Step)
    requires Possible(c, s, steps) && Enabled(c, Run(c, s, steps), step)
    ensures Possible(c, s, steps + [step]) && Run(c, s, steps + [step]) == Next(c, Run(c, s, steps), step)
    decreases |steps|
  {
    var all := steps + [step];
    if steps == [] {
      assert all[1..] == [];
      assert Possible(c, Next(c, s, step), all[1..]);
    } else {
      assert all[1..] == steps[1..] + [step];
      RunFurther(c, Next(c, s, steps[0]), steps[1..], step);
    }
  }

  lemma ReachableNext(c: Config, s: State, step: Step)
    requires Reachable(c, s) && Enabled(c, s, step)
    ensures Reachable(c, Next(c, s, step))
  {
    var steps :| Possible(c, Start(c), steps) && Run(c, Start(c), steps) == s;
    RunFurther(c, Start(c), steps, step);
  }

  lemma ReachableStart(c: Config)
    ensures Reachable(c, Start(c))
  {
    var none: seq<Step> := [];
    assert Possible(c, Start(c), none) && Run(c, Start(c), none) == Start(c);
  }
}
