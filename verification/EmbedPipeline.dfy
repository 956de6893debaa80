/** Ingest and embedding as peer coroutines: a bounded queue of id batches, embed slots, and a closing sentinel. */
module EmbedPipeline {
  import opened Options

  type Batch = seq<string>

  /** Still walking pages, waiting to put the sentinel, or done. */
  datatype Producer = Walking | Closing | Stopped

  /** At the semaphore, holding a slot at the queue, waiting for the tasks, or past closing the embedding stream. */
  datatype Consumer = Reserving | Pulling | Joining | Closed

  datatype Pipeline = Pipeline(
    maxPages: nat, concurrency: nat,
    todo: seq<Batch>, producer: Producer, queue: seq<Option<Batch>>,
    free: nat, consumer: Consumer, running: seq<Batch>,
    ingestCancelled: bool, embeddingCancelled: bool,
    // histories
    admitted: seq<Batch>, pulled: seq<Batch>, started: seq<Batch>, finished: seq<Batch>)

  /** The pipeline before the first page, given the batches the walk is going to yield. */
  function Initial(maxPages: int, concurrency: int, walk: seq<Batch>): Pipeline {
    var slots := if concurrency < 1 then 1 else concurrency;
    Pipeline(if maxPages < 1 then 1 else maxPages, slots, walk, Walking, [], slots, Reserving, [], false, false,
             [], [], [], [])
  }

  datatype Step =
    | Offer | EndWalk | PutSentinel | Reserve | Pull | TaskEnd(i: nat) | Join | CancelIngest | CancelEmbedding

  /** The stretch between two awaits; a step whose await cannot complete yet leaves the state alone. */
  function Next(p: Pipeline, step: Step): Pipeline {
    match step
    case Offer =>
      if p.producer.Walking? && p.todo != [] then
        if p.ingestCancelled || p.embeddingCancelled then p.(todo := p.todo[1..])
        else if |p.queue| < p.maxPages then
          p.(todo := p.todo[1..], queue := p.queue + [Some(p.todo[0])], admitted := p.admitted + [p.todo[0]])
        else p
      else p
    case EndWalk =>
      if p.producer.Walking? && (p.todo == [] || p.ingestCancelled) then p.(producer := Closing, todo := []) else p
    case PutSentinel =>
      if p.producer.Closing? && |p.queue| < p.maxPages then p.(producer := Stopped, queue := p.queue + [None]) else p
    case Reserve =>
      if p.consumer.Reserving? && p.free > 0 then p.(consumer := Pulling, free := p.free - 1) else p
    case Pull =>
      if p.consumer.Pulling? && p.queue != [] then
        var rest := p.(queue := p.queue[1..]);
        if p.queue[0].None? then rest.(consumer := Joining, free := p.free + 1)
        else
          var b := p.queue[0].value;
          if p.embeddingCancelled
          then rest.(consumer := Reserving, free := p.free + 1, pulled := p.pulled + [b])
          else rest.(consumer := Reserving, running := p.running + [b], pulled := p.pulled + [b],
                     started := p.started + [b])
      else p
    case TaskEnd(i) =>
      if i < |p.running| then
        p.(running := p.running[..i] + p.running[i + 1..], free := p.free + 1, finished := p.finished + [p.running[i]])
      else p
    case Join => if p.consumer.Joining? && p.running == [] then p.(consumer := Closed) else p
    case CancelIngest => p.(ingestCancelled := true)
    case CancelEmbedding => p.(embeddingCancelled := true)
  }

  function Run(p: Pipeline, steps: seq<Step>): Pipeline
    decreases |steps|
  {
    if steps == [] then p else Run(Next(p, steps[0]), steps[1..])
  }

  function Batches(queue: seq<Option<Batch>>): seq<Batch> {
    if queue == [] then [] else (if queue[0].Some? then [queue[0].value] else []) + Batches(queue[1..])
  }

  /** The sentinel stands last in the queue from the moment the producer stops until the consumer pulls it. */
  predicate SentinelLast(p: Pipeline) {
    var open := p.producer.Stopped? && (p.consumer.Reserving? || p.consumer.Pulling?);
    && (open ==> p.queue != [])
    && (forall i | 0 <= i < |p.queue| :: p.queue[i].None? <==> open && i == |p.queue| - 1)
    && (p.consumer.Joining? || p.consumer.Closed? ==> p.producer.Stopped? && p.queue == [])
  }

  predicate Inv(p: Pipeline, walk: seq<Batch>) {
    && p.maxPages >= 1 && p.concurrency >= 1
    && |p.queue| <= p.maxPages
    && p.free + |p.running| + (if p.consumer.Pulling? then 1 else 0) == p.concurrency
    && SentinelLast(p)
    && p.admitted == p.pulled + Batches(p.queue)
    && p.started <= p.pulled
    && (!p.embeddingCancelled ==> p.started == p.pulled)
    && (!p.ingestCancelled && !p.embeddingCancelled ==> p.admitted + p.todo == walk)
    && (!p.producer.Walking? ==> p.todo == [])
    && multiset(p.started) == multiset(p.running) + multiset(p.finished)
    && (p.consumer.Closed? ==> p.running == [])
  }

  lemma {:induction false} BatchesSnoc(queue: seq<Option<Batch>>, item: Option<Batch>)
    ensures Batches(queue + [item]) == Batches(queue) + if item.Some? then [item.value] else []
  {
    if queue != [] {
      assert (queue + [item])[1..] == queue[1..] + [item];
      BatchesSnoc(queue[1..], item);
    }
  }

  lemma {:induction false} BatchesLength(queue: seq<Option<Batch>>)
    ensures |Batches(queue)| <= |queue|
  {
    if queue != [] {
      BatchesLength(queue[1..]);
    }
  }

  lemma OfferKeepsInv(p: Pipeline, walk: seq<Batch>)
    requires Inv(p, walk)
    ensures Inv(Next(p, Offer), walk)
  {
    if p.producer.Walking? && p.todo != [] && !p.ingestCancelled && !p.embeddingCancelled && |p.queue| < p.maxPages {
      var b := p.todo[0];
      BatchesSnoc(p.queue, Some(b));
      assert p.admitted + [b] + p.todo[1..] == p.admitted + p.todo;
      assert p.pulled + Batches(p.queue) + [b] == p.pulled + (Batches(p.queue) + [b]);
    }
  }

  lemma PutSentinelKeepsInv(p: Pipeline, walk: seq<Batch>)
    requires Inv(p, walk)
    ensures Inv(Next(p, PutSentinel), walk)
  {
    BatchesSnoc(p.queue, None);
    assert Batches(p.queue) + [] == Batches(p.queue);
  }

  lemma PullBatchKeepsInv(p: Pipeline, walk: seq<Batch>)
    requires Inv(p, walk) && p.consumer.Pulling? && p.queue != [] && p.queue[0].Some?
    ensures Inv(Next(p, Pull), walk)
  {
    var b, rest := p.queue[0].value, p.queue[1..];
    assert p.pulled + [b] + Batches(rest) == p.pulled + ([b] + Batches(rest));
    assert multiset(p.started + [b]) == multiset(p.running + [b]) + multiset(p.finished);
  }

  lemma PullSentinelKeepsInv(p: Pipeline, walk: seq<Batch>)
    requires Inv(p, walk) && p.consumer.Pulling? && p.queue != [] && p.queue[0].None?
    ensures Inv(Next(p, Pull), walk)
  {
    assert p.queue[1..] == [];
    assert Batches(p.queue) == Batches(p.queue[1..]);
  }

  lemma TaskEndKeepsInv(p: Pipeline, i: nat, walk: seq<Batch>)
    requires Inv(p, walk) && i < |p.running|
    ensures Inv(Next(p, TaskEnd(i)), walk)
  {
    assert p.running == p.running[..i] + [p.running[i]] + p.running[i + 1..];
  }

  lemma OthersKeepInv(p: Pipeline, step: Step, walk: seq<Batch>)
    requires Inv(p, walk) && step in {EndWalk, Reserve, Join, CancelIngest, CancelEmbedding}
    ensures Inv(Next(p, step), walk)
  {}

  lemma NextKeepsInv(p: Pipeline, step: Step, walk: seq<Batch>)
    requires Inv(p, walk)
    ensures Inv(Next(p, step), walk)
  {
    match step {
      case Offer => OfferKeepsInv(p, walk);
      case PutSentinel => PutSentinelKeepsInv(p, walk);
      case Pull =>
        if p.consumer.Pulling? && p.queue != [] {
          if p.queue[0].Some? { PullBatchKeepsInv(p, walk); } else { PullSentinelKeepsInv(p, walk); }
        }
      case TaskEnd(i) => if i < |p.running| { TaskEndKeepsInv(p, i, walk); }
      case _ => OthersKeepInv(p, step, walk);
    }
  }

  lemma {:induction false} RunKeepsInv(p: Pipeline, steps: seq<Step>, walk: seq<Batch>)
    requires Inv(p, walk)
    ensures Inv(Run(p, steps), walk)
    decreases |steps|
  {
    if steps != [] {
      NextKeepsInv(p, steps[0], walk);
      RunKeepsInv(Next(p, steps[0]), steps[1..], walk);
    }
  }

  /** Batches taken over from the walk and not yet embedded or discarded. */
  function Unfinished(p: Pipeline): int {
    |p.admitted| - |p.finished| - (|p.pulled| - |p.started|)
  }

  /** In every reachable state the batches in flight fit the queue and the slots, and start in the walk's order. */
  lemma BoundedInFlight(maxPages: int, concurrency: int, walk: seq<Batch>, steps: seq<Step>)
    ensures var p := Run(Initial(maxPages, concurrency, walk), steps);
      var pages, slots := if maxPages < 1 then 1 else maxPages, if concurrency < 1 then 1 else concurrency;
      && 0 <= Unfinished(p) <= pages + slots
      && |p.queue| <= pages && |p.running| <= slots
      && p.started <= p.admitted
      && (!p.ingestCancelled && !p.embeddingCancelled ==> p.started <= walk)
  {
    var p := Run(Initial(maxPages, concurrency, walk), steps);
    RunKeepsInv(Initial(maxPages, concurrency, walk), steps, walk);
    RunKeepsBounds(Initial(maxPages, concurrency, walk), steps);
    BatchesLength(p.queue);
    assert |multiset(p.started)| == |multiset(p.running)| + |multiset(p.finished)|;
  }

  lemma {:induction false} RunKeepsBounds(p: Pipeline, steps: seq<Step>)
    ensures Run(p, steps).maxPages == p.maxPages && Run(p, steps).concurrency == p.concurrency
    decreases |steps|
  {
    if steps != [] {
      RunKeepsBounds(Next(p, steps[0]), steps[1..]);
    }
  }

  /** The embedding stream is closed only after every task ended; without a cancellation each batch had one. */
  lemma ClosedAfterAll(maxPages: int, concurrency: int, walk: seq<Batch>, steps: seq<Step>)
    requires Run(Initial(maxPages, concurrency, walk), steps).consumer.Closed?
    ensures var p := Run(Initial(maxPages, concurrency, walk), steps);
      && p.running == [] && p.queue == [] && Unfinished(p) == 0
      && multiset(p.finished) == multiset(p.started)
      && (!p.ingestCancelled && !p.embeddingCancelled ==> p.started == p.admitted == walk)
  {
    var p := Run(Initial(maxPages, concurrency, walk), steps);
    RunKeepsInv(Initial(maxPages, concurrency, walk), steps, walk);
    assert |multiset(p.started)| == |multiset(p.running)| + |multiset(p.finished)|;
    assert p.admitted + [] == p.admitted;
  }

  // ----- nothing wedges -----

  /** How much work is left; every step that does something uses some of it up. */
  function Work(p: Pipeline): nat {
    4 * |p.todo| + 3 * |p.queue| + |p.running|
    + (match p.producer case Walking => 5 case Closing => 4 case Stopped => 0)
    + (match p.consumer case Reserving => 2 case Pulling => 1 case Joining => 1 case Closed => 0)
  }

  predicate Cancels(step: Step) { step.CancelIngest? || step.CancelEmbedding? }

  lemma StepsUseWork(p: Pipeline, step: Step)
    requires Next(p, step) != p
    ensures if Cancels(step) then Work(Next(p, step)) == Work(p) else Work(Next(p, step)) < Work(p)
  {}

  /** Until the embedding stream is closed some coroutine can move, whatever was cancelled. */
  lemma SomebodyMoves(p: Pipeline, walk: seq<Batch>) returns (step: Step)
    requires Inv(p, walk) && !p.consumer.Closed?
    ensures !Cancels(step) && Next(p, step) != p
  {
    match p.consumer
    case Reserving => step := if p.free > 0 then Reserve else TaskEnd(0);
    case Joining => step := if p.running == [] then Join else TaskEnd(0);
    case Pulling =>
      if p.queue != [] {
        step := Pull;
      } else {
        step := match p.producer case Walking => if p.todo == [] then EndWalk else Offer case _ => PutSentinel;
        if p.producer.Walking? && p.todo != [] { assert |Next(p, Offer).todo| == |p.todo| - 1; }
      }
  }

  predicate Busy(p: Pipeline, steps: seq<Step>)
    decreases |steps|
  {
    steps != [] ==> !Cancels(steps[0]) && Next(p, steps[0]) != p && Busy(Next(p, steps[0]), steps[1..])
  }

  lemma {:induction false} BusyRunsAreShort(p: Pipeline, steps: seq<Step>)
    requires Busy(p, steps)
    ensures |steps| + Work(Run(p, steps)) <= Work(p)
    decreases |steps|
  {
    if steps != [] {
      StepsUseWork(p, steps[0]);
      BusyRunsAreShort(Next(p, steps[0]), steps[1..]);
    }
  }

  /** Every busy run over `n` batches has at most `4n + 7` steps, and one that cannot go on has closed the stream. */
  lemma PipelineTerminates(maxPages: int, concurrency: int, walk: seq<Batch>, steps: seq<Step>)
    requires Busy(Initial(maxPages, concurrency, walk), steps)
    ensures |steps| <= 4 * |walk| + 7
    ensures var p := Run(Initial(maxPages, concurrency, walk), steps);
      (forall step | !Cancels(step) :: Next(p, step) == p) ==> p.consumer.Closed? && p.started == walk
  {
    var p := Run(Initial(maxPages, concurrency, walk), steps);
    BusyRunsAreShort(Initial(maxPages, concurrency, walk), steps);
    RunKeepsInv(Initial(maxPages, concurrency, walk), steps, walk);
    BusyNeverCancels(Initial(maxPages, concurrency, walk), steps);
    if p.consumer.Closed? {
      ClosedAfterAll(maxPages, concurrency, walk, steps);
    } else {
      var step := SomebodyMoves(p, walk);
    }
  }

  lemma {:induction false} BusyNeverCancels(p: Pipeline, steps: seq<Step>)
    requires Busy(p, steps)
    ensures Run(p, steps).ingestCancelled == p.ingestCancelled
    ensures Run(p, steps).embeddingCancelled == p.embeddingCancelled
    decreases |steps|
  {
    if steps != [] {
      BusyNeverCancels(Next(p, steps[0]), steps[1..]);
    }
  }
}
