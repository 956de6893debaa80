/** Honest progress of one embedding stream: every scheduled id is done, failed, or still with a batch. */
module EmbedAccounting {
  import opened Options
  import opened Text

  const EMBED_PROGRESS_CHUNK: nat := 16

  datatype Counters = Counters(
    total: int, done: int, indexed: int, failed: int, inFlight: nat, accepting: bool, cancelled: bool)

  const OPENED := Counters(0, 0, 0, 0, 0, true, false)

  /** The tallies a terminal event carries. */
  datatype Complete = Complete(total: int, done: int, indexed: int, failed: int, cancelled: bool)

  function Tally(c: Counters, cancelled: bool): Complete { Complete(c.total, c.done, c.indexed, c.failed, cancelled) }

  function ChunkSize(left: nat): nat { if left < EMBED_PROGRESS_CHUNK then left else EMBED_PROGRESS_CHUNK }

  /** What one call of the embedder answers: the ids it indexed, or a hard failure and how many ids it attempted. */
  datatype Answer = Indexed(count: nat) | HardFailure(attempted: Option<int>)

  /** An unknown or impossible attempt count charges the whole chunk; ids skipped before the write count as done. */
  function Charged(attempted: Option<int>, chunk: nat): (n: int)
    ensures n <= chunk
  {
    if attempted.None? || attempted.value > chunk then chunk else attempted.value
  }

  function Admit(c: Counters, n: nat): Counters { c.(total := c.total + n, inFlight := c.inFlight + 1) }

  function Account(c: Counters, chunk: nat, answer: Answer): Counters {
    match answer
    case Indexed(k) => c.(done := c.done + chunk, indexed := c.indexed + k)
    case HardFailure(a) => c.(failed := c.failed + Charged(a, chunk), done := c.done + chunk - Charged(a, chunk))
  }

  function Leave(c: Counters): Counters { c.(inFlight := if c.inFlight > 0 then c.inFlight - 1 else 0) }

  /** The natural completion condition. */
  predicate Finished(c: Counters) { !c.accepting && c.inFlight == 0 }

  // ----- any number of concurrent batches -----

  /** A batch with `left` ids unprocessed; an abandoned one returned because the stream was cancelled or gone. */
  datatype Batch = Embedding(left: nat) | Abandoned(left: nat) | Ended

  /** `tracked` says the state is still in the table of embedding streams. */
  datatype Stream = Stream(c: Counters, tracked: bool, batches: seq<Batch>, completes: seq<Complete>)

  /** `held` marks a coroutine that looked the state up before it left the table. */
  datatype Step =
    | Schedule(ids: nat)
    | ScheduleNothing(held: bool)
    | Chunk(b: nat, answer: Answer)
    | FinishInFlight(b: nat, held: bool)
    | Close(held: bool)
    | Cancel
    | DropCancelled

  function MaybeFinish(s: Stream): Stream {
    if Finished(s.c) then s.(tracked := false, completes := s.completes + [Tally(s.c, false)]) else s
  }

  /** One stretch under the state's lock. */
  function Next(s: Stream, step: Step): Stream {
    match step
    case Schedule(n) =>
      if n > 0 && s.c.accepting && !s.c.cancelled
      then s.(c := Admit(s.c, n), batches := s.batches + [Embedding(n)]) else s
    case ScheduleNothing(held) =>
      if (s.tracked || held) && !s.c.accepting && !s.c.cancelled then MaybeFinish(s) else s
    case Chunk(b, answer) =>
      if b < |s.batches| && s.batches[b].Embedding? && s.batches[b].left > 0 then
        var left := s.batches[b].left;
        if !s.tracked || s.c.cancelled then s.(batches := s.batches[b := Abandoned(left)])
        else s.(c := Account(s.c, ChunkSize(left), answer),
                batches := s.batches[b := Embedding(left - ChunkSize(left))])
      else s
    case FinishInFlight(b, held) =>
      if b < |s.batches| && s.batches[b] == Embedding(0) then
        if !s.tracked && !held then s.(batches := s.batches[b := Abandoned(0)])
        else
          var left := s.(c := Leave(s.c), batches := s.batches[b := Ended]);
          if s.c.cancelled then left else MaybeFinish(left)
      else s
    case Close(held) =>
      if s.tracked || held then MaybeFinish(s.(c := s.c.(accepting := false))) else s
    case Cancel =>
      if s.tracked && !s.c.cancelled
      then s.(c := s.c.(cancelled := true, accepting := false), completes := s.completes + [Tally(s.c, true)])
      else s
    case DropCancelled => if s.c.cancelled then s.(tracked := false) else s
  }

  function Run(s: Stream, steps: seq<Step>): Stream {
    if steps == [] then s else Next(Run(s, steps[..|steps| - 1]), steps[|steps| - 1])
  }

  const CREATED := Stream(OPENED, true, [], [])

  function Unprocessed(bs: seq<Batch>): nat {
    if bs == [] then 0 else Unprocessed(bs[..|bs| - 1]) + if bs[|bs| - 1].Ended? then 0 else bs[|bs| - 1].left
  }

  function Unended(bs: seq<Batch>): nat {
    if bs == [] then 0 else Unended(bs[..|bs| - 1]) + if bs[|bs| - 1].Ended? then 0 else 1
  }

  predicate Honest(e: Complete) {
    if e.cancelled then e.done + e.failed <= e.total else e.done + e.failed == e.total
  }

  predicate Conserved(s: Stream) {
    && s.c.total == s.c.done + s.c.failed + Unprocessed(s.batches)
    && s.c.inFlight == Unended(s.batches)
    && forall e | e in s.completes :: Honest(e)
  }

  lemma {:induction false} Replace(bs: seq<Batch>, i: nat, b: Batch)
    requires i < |bs|
    ensures Unprocessed(bs[i := b])
         == Unprocessed(bs) - (if bs[i].Ended? then 0 else bs[i].left) + (if b.Ended? then 0 else b.left)
    ensures Unended(bs[i := b]) == Unended(bs) - (if bs[i].Ended? then 0 else 1) + (if b.Ended? then 0 else 1)
  {
    var front := bs[..|bs| - 1];
    if i < |front| {
      Replace(front, i, b);
      assert bs[i := b][..|bs| - 1] == front[i := b];
    } else {
      assert bs[i := b][..|bs| - 1] == front;
    }
  }

  lemma {:induction false} AllEnded(bs: seq<Batch>)
    requires Unended(bs) == 0
    ensures Unprocessed(bs) == 0
  {
    if bs != [] {
      AllEnded(bs[..|bs| - 1]);
    }
  }

  lemma FinishIsHonest(s: Stream)
    requires Conserved(s)
    ensures Conserved(MaybeFinish(s))
  {
    if Finished(s.c) { AllEnded(s.batches); }
  }

  lemma ChunkConserves(s: Stream, b: nat, answer: Answer)
    requires Conserved(s) && b < |s.batches| && s.batches[b].Embedding?
    ensures Conserved(Next(s, Chunk(b, answer)))
  {
    var left := s.batches[b].left;
    Replace(s.batches, b, Abandoned(left));
    Replace(s.batches, b, Embedding(left - ChunkSize(left)));
  }

  lemma FinishInFlightConserves(s: Stream, b: nat, held: bool)
    requires Conserved(s) && b < |s.batches| && s.batches[b] == Embedding(0)
    ensures Conserved(Next(s, FinishInFlight(b, held)))
  {
    Replace(s.batches, b, Abandoned(0));
    Replace(s.batches, b, Ended);
    FinishIsHonest(s.(c := Leave(s.c), batches := s.batches[b := Ended]));
  }

  lemma NextConserves(s: Stream, step: Step)
    requires Conserved(s)
    ensures Conserved(Next(s, step))
  {
    match step {
      case Schedule(n) => assert (s.batches + [Embedding(n)])[..|s.batches|] == s.batches;
      case ScheduleNothing(_) => FinishIsHonest(s);
      case Chunk(b, answer) => if b < |s.batches| && s.batches[b].Embedding? { ChunkConserves(s, b, answer); }
      case FinishInFlight(b, held) =>
        if b < |s.batches| && s.batches[b] == Embedding(0) { FinishInFlightConserves(s, b, held); }
      case Close(_) => FinishIsHonest(s.(c := s.c.(accepting := false)));
      case _ =>
    }
  }

  /** At every step of every run each scheduled id is accounted for, and a natural completion accounts for them all. */
  lemma {:induction false} Conservation(steps: seq<Step>)
    ensures Conserved(Run(CREATED, steps))
  {
    if steps != [] {
      Conservation(steps[..|steps| - 1]);
      NextConserves(Run(CREATED, steps[..|steps| - 1]), steps[|steps| - 1]);
    }
  }

  /** The embedder never reports more ids than its chunk held. */
  predicate Truthful(s: Stream, step: Step) {
    step.Chunk? && step.answer.Indexed? && step.b < |s.batches| && s.batches[step.b].Embedding?
    ==> step.answer.count <= ChunkSize(s.batches[step.b].left)
  }

  predicate AllTruthful(steps: seq<Step>) {
    forall n | 0 <= n < |steps| :: Truthful(Run(CREATED, steps[..n]), steps[n])
  }

  predicate Indexable(s: Stream) { s.c.indexed <= s.c.done && forall e | e in s.completes :: e.indexed <= e.done }

  lemma NextKeepsIndexable(s: Stream, step: Step)
    requires Indexable(s) && Truthful(s, step)
    ensures Indexable(Next(s, step))
  {}

  /** Rows written to Milvus never outnumber the ids done, in the counters or in any event. */
  lemma {:induction false} IndexedWithinDone(steps: seq<Step>)
    requires AllTruthful(steps)
    ensures Indexable(Run(CREATED, steps))
  {
    if steps != [] {
      var front := steps[..|steps| - 1];
      forall n | 0 <= n < |front| ensures Truthful(Run(CREATED, front[..n]), front[n]) {
        assert front[..n] == steps[..n];
      }
      IndexedWithinDone(front);
      NextKeepsIndexable(Run(CREATED, front), steps[|steps| - 1]);
    }
  }

  // ----- the state, updated in place -----

  class EmbeddingStreamState {
    var total: int
    var done: int
    var indexedCount: int
    var failedCount: int
    var inFlight: nat
    var accepting: bool
    var cancelled: bool

    ghost function View(): Counters
      reads this
    {
      Counters(total, done, indexedCount, failedCount, inFlight, accepting, cancelled)
    }

    constructor ()
      ensures View() == OPENED
    {
      total, done, indexedCount, failedCount, inFlight := 0, 0, 0, 0, 0;
      accepting, cancelled := true, false;
    }

    method AddBatch(ids: nat) returns (admitted: bool)
      modifies this
      ensures admitted == (old(accepting) && !old(cancelled))
      ensures View() == if admitted then Admit(old(View()), ids) else old(View())
    {
      if !accepting || cancelled { return false; }
      total := total + ids;
      inFlight := inFlight + 1;
      return true;
    }

    method RecordChunk(size: nat, answer: Answer) returns (recorded: bool)
      modifies this
      ensures recorded == !old(cancelled)
      ensures View() == if recorded then Account(old(View()), size, answer) else old(View())
    {
      if cancelled { return false; }
      match answer {
        case Indexed(count) =>
          done := done + size;
          indexedCount := indexedCount + count;
        case HardFailure(a) =>
          var attempted := size as int;
          if a.Some? && a.value <= size { attempted := a.value; }
          failedCount := failedCount + attempted;
          done := done + (size - attempted);
      }
      return true;
    }

    /** Returns the natural completion event if this was the last batch of a closed stream. */
    method FinishInFlight() returns (event: Option<Complete>)
      modifies this
      ensures View() == Leave(old(View()))
      ensures event == if !cancelled && Finished(View()) then Some(Tally(View(), false)) else None
    {
      if inFlight > 0 { inFlight := inFlight - 1; }
      if cancelled || accepting || inFlight > 0 { return None; }
      return Some(Complete(total, done, indexedCount, failedCount, false));
    }
  }

  /** The distinct non-empty ids in order of first appearance, white space around them taken off. */
  function UniqueIds(ids: seq<string>): seq<string> {
    if ids == [] then []
    else
      var front, last := UniqueIds(ids[..|ids| - 1]), Strip(ids[|ids| - 1]);
      if last == "" || last in front then front else front + [last]
  }

  lemma {:induction false} UniqueIdsMeaning(ids: seq<string>)
    ensures forall id :: id in UniqueIds(ids) <==> id != "" && exists raw | raw in ids :: Strip(raw) == id
    ensures forall i, j | 0 <= i < j < |UniqueIds(ids)| :: UniqueIds(ids)[i] != UniqueIds(ids)[j]
  {
    if ids != [] {
      var front, last := ids[..|ids| - 1], ids[|ids| - 1];
      UniqueIdsMeaning(front);
      assert forall id :: id in ids <==> id in front || id == last;
    }
  }

  /** Ids keep the order they first come in. */
  lemma {:induction false} UniqueIdsKeepOrder(ids: seq<string>, k: nat)
    requires k <= |ids|
    ensures UniqueIds(ids[..k]) <= UniqueIds(ids)
  {
    if k < |ids| {
      UniqueIdsKeepOrder(ids[..|ids| - 1], k);
      assert ids[..|ids| - 1][..k] == ids[..k];
    } else {
      assert ids[..k] == ids;
    }
  }

  method DistinctIds(ids: seq<string>) returns (unique: seq<string>)
    ensures unique == UniqueIds(ids)
  {
    unique := [];
    for i := 0 to |ids|
      invariant unique == UniqueIds(ids[..i])
    {
      assert ids[..i + 1][..i] == ids[..i];
      var id := Strip(ids[i]);
      if id != "" && id !in unique { unique := unique + [id]; }
    }
    assert ids[..|ids|] == ids;
  }

  /** The counters after one chunk after another has been answered for. */
  function AccountAll(c: Counters, chunks: seq<seq<string>>, answers: seq<string> -> Answer): Counters {
    if chunks == [] then c
    else
      var n := |chunks| - 1;
      Account(AccountAll(c, chunks[..n], answers), |chunks[n]|, answers(chunks[n]))
  }

  predicate ClosedBy(closed: nat -> bool, n: nat) { exists i: nat | i < n :: closed(i) }

  lemma AccountAllSnoc(c: Counters, chunks: seq<seq<string>>, chunk: seq<string>, answers: seq<string> -> Answer)
    ensures AccountAll(c, chunks + [chunk], answers) == Account(AccountAll(c, chunks, answers), |chunk|, answers(chunk))
  {
    assert (chunks + [chunk])[..|chunks|] == chunks;
  }

  /** However the embedder answers, every id of the chunks ends up done or failed and nothing else is counted. */
  lemma {:induction false} AccountAllTotals(c: Counters, chunks: seq<seq<string>>, answers: seq<string> -> Answer)
    ensures var d := AccountAll(c, chunks, answers);
      && d.done + d.failed == c.done + c.failed + |Flatten(chunks)|
      && d.total == c.total && d.inFlight == c.inFlight && d.accepting == c.accepting && d.cancelled == c.cancelled
  {
    if chunks != [] { AccountAllTotals(c, chunks[..|chunks| - 1], answers); }
  }

  /** Chunks of 16, the last perhaps shorter. */
  predicate Bounded(chunks: seq<seq<string>>) {
    && (forall c | c in chunks :: 0 < |c| <= 16)
    && (forall i | 0 <= i < |chunks| - 1 :: |chunks[i]| == 16)
  }

  /** What one chunk adds: indexed or not, an answered chunk is done; of a failed one the ids it is known to have
      attempted are failed, or all of them, and the rest done. */
  lemma AccountMeaning(c: Counters, size: nat, answer: Answer)
    ensures var d := Account(c, size, answer);
      match answer
      case Indexed(k) => d.done == c.done + size && d.indexed == c.indexed + k && d.failed == c.failed
      case HardFailure(a) =>
        && d.indexed == c.indexed
        && (a.Some? && a.value <= size ==> d.failed == c.failed + a.value && d.done == c.done + (size - a.value))
        && (a.None? || a.value > size ==> d.failed == c.failed + size && d.done == c.done)
  {}

  /** Without a failure every id is done and none failed; with nothing but failures that name no count, the reverse. */
  lemma {:induction false} AllOrNothing(c: Counters, chunks: seq<seq<string>>, answers: seq<string> -> Answer)
    ensures (forall k | k in chunks :: answers(k).Indexed?) ==>
      AccountAll(c, chunks, answers).failed == c.failed
      && AccountAll(c, chunks, answers).done == c.done + |Flatten(chunks)|
    ensures (forall k | k in chunks :: answers(k) == HardFailure(None)) ==>
      AccountAll(c, chunks, answers).done == c.done && AccountAll(c, chunks, answers).indexed == c.indexed
      && AccountAll(c, chunks, answers).failed == c.failed + |Flatten(chunks)|
  {
    if chunks != [] {
      var n := |chunks| - 1;
      AllOrNothing(c, chunks[..n], answers);
      assert chunks[n] in chunks && forall k | k in chunks[..n] :: k in chunks;
    }
  }

  /** One chunk: the stream may have been closed to further batches before it. */
  method EmbedChunk(state: EmbeddingStreamState, chunk: seq<string>, answers: seq<string> -> Answer, closing: bool)
    requires !state.cancelled
    modifies state
    ensures state.View() == Account(old(state.View()), |chunk|, answers(chunk)).(
      accepting := old(state.accepting) && !closing)
  {
    if closing { state.accepting := false; }
    var recorded := state.RecordChunk(|chunk|, answers(chunk));
  }

  method EmbedAll(state: EmbeddingStreamState, ids: seq<string>, answers: seq<string> -> Answer, closed: nat -> bool)
    returns (chunks: seq<seq<string>>)
    requires !state.cancelled && state.accepting
    modifies state
    ensures Flatten(chunks) == ids && Bounded(chunks)
    ensures state.View() == AccountAll(old(state.View()), chunks, answers).(accepting := !ClosedBy(closed, |chunks|))
  {
    chunks := [];
    ghost var c := state.View();
    var start := 0;
    while start < |ids|
      invariant 0 <= start <= |ids| && Flatten(chunks) == ids[..start] && Bounded(chunks)
      invariant start < |ids| ==> forall k | k in chunks :: |k| == 16
      invariant state.View() == AccountAll(c, chunks, answers).(accepting := !ClosedBy(closed, |chunks|))
      invariant !state.cancelled
    {
      var chunk := ids[start..start + ChunkSize(|ids| - start)];
      FlattenSnoc(chunks, chunk);
      AccountAllSnoc(c, chunks, chunk, answers);
      AccountTwice(AccountAll(c, chunks, answers), !ClosedBy(closed, |chunks|), |chunk|, answers(chunk));
      assert ids[..start + |chunk|] == ids[..start] + chunk;
      EmbedChunk(state, chunk, answers, closed(|chunks|));
      start, chunks := start + |chunk|, chunks + [chunk];
    }
    assert ids[..|ids|] == ids;
  }

  lemma AccountTwice(c: Counters, open: bool, size: nat, answer: Answer)
    ensures Account(c.(accepting := open), size, answer) == Account(c, size, answer).(accepting := open)
  {}

  /** One batch from admission to its end while no cancellation lands: `answers` is what the embedder says to each chunk
      and `closed` whether the stream has been closed to further batches by the n-th chunk. */
  method ScheduleEmbeddingBatch(state: EmbeddingStreamState, ids: seq<string>, answers: seq<string> -> Answer,
                                closed: nat -> bool)
    returns (chunks: seq<seq<string>>, event: Option<Complete>)
    modifies state
    ensures UniqueIds(ids) == [] || !old(state.accepting) || old(state.cancelled) ==>
      chunks == [] && state.View() == old(state.View())
    ensures UniqueIds(ids) != [] && old(state.accepting) && !old(state.cancelled) ==>
      && Flatten(chunks) == UniqueIds(ids) && Bounded(chunks)
      && state.View() == Leave(AccountAll(Admit(old(state.View()), |UniqueIds(ids)|), chunks, answers)).(
        accepting := !ClosedBy(closed, |chunks|))
      && state.total == old(state.total) + |UniqueIds(ids)|
      && state.done + state.failedCount == old(state.done + state.failedCount) + |UniqueIds(ids)|
      && state.inFlight == old(state.inFlight)
    ensures event.Some? <==>
      Finished(state.View()) && !state.cancelled && (UniqueIds(ids) == [] || old(state.accepting))
    ensures event.Some? ==> event.value == Tally(state.View(), false)
  {
    chunks, event := [], None;
    var unique := DistinctIds(ids);
    if unique == [] {
      if !state.accepting && !state.cancelled && state.inFlight == 0 {
        event := Some(Complete(state.total, state.done, state.indexedCount, state.failedCount, false));
      }
      return;
    }
    var admitted := state.AddBatch(|unique|);
    if !admitted { return; }
    ghost var c := state.View();
    chunks := EmbedAll(state, unique, answers, closed);
    AccountAllTotals(c, chunks, answers);
    event := state.FinishInFlight();
  }

  function Flatten(chunks: seq<seq<string>>): seq<string> {
    if chunks == [] then [] else Flatten(chunks[..|chunks| - 1]) + chunks[|chunks| - 1]
  }

  lemma FlattenSnoc(chunks: seq<seq<string>>, chunk: seq<string>)
    ensures Flatten(chunks + [chunk]) == Flatten(chunks) + chunk
  {
    assert (chunks + [chunk])[..|chunks|] == chunks;
  }
}
