/** The replay log of a stream job: lossy events are trimmed while readers walk it by sequence number. */
module StreamLog {
  import opened Options

  const MAX_PROGRESS_EVENTS := 500
  const POST_JOB_TTL := 90.0

  datatype Event = Event(kind: string, body: string)

  predicate Lossy(e: Event) { e.kind in {"progress", "embedding_progress", "throttled"} }

  predicate Terminal(e: Event) { e.kind in {"complete", "error"} }

  datatype Buffered = Buffered(seqNo: nat, event: Event)

  function LossyCount(h: seq<Buffered>): nat {
    if h == [] then 0 else LossyCount(h[..|h| - 1]) + if Lossy(h[|h| - 1].event) then 1 else 0
  }

  /** The log without its `k` oldest lossy entries. */
  function DropLossy(h: seq<Buffered>, k: nat): seq<Buffered> {
    if k == 0 || h == [] then h
    else if Lossy(h[0].event) then DropLossy(h[1..], k - 1)
    else [h[0]] + DropLossy(h[1..], k)
  }

  /** Everything published, numbered in publication order. */
  function Numbered(published: seq<Event>): (r: seq<Buffered>)
    ensures |r| == |published| && forall i | 0 <= i < |r| :: r[i] == Buffered(i, published[i])
  {
    seq(|published|, i requires 0 <= i < |published| => Buffered(i, published[i]))
  }

  function Surplus(published: seq<Event>): nat {
    var n := LossyCount(Numbered(published));
    if n > MAX_PROGRESS_EVENTS then n - MAX_PROGRESS_EVENTS else 0
  }

  function LossyKept(published: seq<Event>): nat {
    assert Surplus(published) <= LossyCount(Numbered(published));
    LossyCount(Numbered(published)) - Surplus(published)
  }

  /** What the log must hold: everything published minus all but the newest 500 lossy events. */
  function Retained(published: seq<Event>): seq<Buffered> { DropLossy(Numbered(published), Surplus(published)) }

  /** First entry after the cursor. */
  function NextAfter(h: seq<Buffered>, last: int): Option<Buffered> {
    if h == [] then None else if h[0].seqNo > last then Some(h[0]) else NextAfter(h[1..], last)
  }

  datatype Status = Pending | Running | Complete | Error {
    predicate Ended() { Complete? || Error? }
  }

  // ----- the job, updated in place -----

  class StreamJob {
    var history: seq<Buffered>
    var nextSeq: nat
    var progressCount: nat
    var status: Status
    var createdAt: real
    var finishedAt: Option<real>
    var subscribers: nat
    ghost var published: seq<Event>

    ghost predicate Valid()
      reads this
    {
      && history == Retained(published)
      && nextSeq == |published|
      && progressCount == LossyKept(published)
    }

    constructor (now: real)
      ensures Valid() && published == [] && status == Pending && subscribers == 0
      ensures createdAt == now && finishedAt == None
    {
      history, nextSeq, progressCount, published := [], 0, 0, [];
      status, createdAt, finishedAt, subscribers := Pending, now, None, 0;
    }

    method Publish(event: Event)
      requires Valid()
      modifies `history, `nextSeq, `progressCount, `published
      ensures Valid() && published == old(published) + [event]
    {
      RetainedSnoc(published, event);
      published := published + [event];
      history := history + [Buffered(nextSeq, event)];
      nextSeq := nextSeq + 1;
      if event.kind in {"progress", "embedding_progress", "throttled"} {
        progressCount := progressCount + 1;
        if progressCount > MAX_PROGRESS_EVENTS { TrimProgress(); }
      }
    }

    /** Deletes the oldest lossy entry. */
    method TrimProgress()
      requires progressCount > MAX_PROGRESS_EVENTS && LossyCount(history) > 0
      modifies `history, `progressCount
      ensures history == DropLossy(old(history), 1) && progressCount == old(progressCount) - 1
    {
      var i := 0;
      while i < |history|
        invariant 0 <= i <= |history|
        invariant forall j | 0 <= j < i :: !Lossy(history[j].event)
      {
        if Lossy(history[i].event) {
          DropAt(history, i);
          history := history[..i] + history[i + 1..];
          progressCount := progressCount - 1;
          return;
        }
        i := i + 1;
      }
      NoneLossy(history);
    }

    method NextBuffered(afterSeq: int) returns (r: Option<Buffered>)
      ensures r == NextAfter(history, afterSeq)
    {
      var i := 0;
      while i < |history|
        invariant 0 <= i <= |history|
        invariant NextAfter(history[i..], afterSeq) == NextAfter(history, afterSeq)
      {
        if history[i].seqNo > afterSeq { return Some(history[i]); }
        i := i + 1;
      }
      return None;
    }
  }

  lemma NumberedSnoc(published: seq<Event>, event: Event)
    ensures Numbered(published + [event]) == Numbered(published) + [Buffered(|published|, event)]
  {}

  lemma CountSnoc(h: seq<Buffered>, b: Buffered)
    ensures LossyCount(h + [b]) == LossyCount(h) + if Lossy(b.event) then 1 else 0
  {
    assert (h + [b])[..|h|] == h;
  }

  /** Publishing appends, and drops the oldest lossy entry once a lossy one is over the cap. */
  lemma RetainedSnoc(published: seq<Event>, event: Event)
    ensures var (log, over) :=
        (Retained(published) + [Buffered(|published|, event)],
         Lossy(event) && LossyKept(published) + 1 > MAX_PROGRESS_EVENTS);
      && Retained(published + [event]) == (if over then DropLossy(log, 1) else log)
      && LossyKept(published + [event]) == LossyKept(published) + (if Lossy(event) && !over then 1 else 0)
      && (over ==> LossyCount(log) > 0)
  {
    var all, b := Numbered(published), Buffered(|published|, event);
    NumberedSnoc(published, event);
    CountSnoc(all, b);
    CountSnoc(Retained(published), b);
    DropSnoc(all, Surplus(published), b);
    DropOneMore(all + [b], Surplus(published));
  }

  lemma {:induction false} CountCons(h: seq<Buffered>)
    requires h != []
    ensures LossyCount(h) == (if Lossy(h[0].event) then 1 else 0) + LossyCount(h[1..])
  {
    if |h| > 1 {
      var front := h[..|h| - 1];
      CountCons(front);
      assert h[1..][..|h| - 2] == front[1..];
    }
  }

  lemma {:induction false} DropSnoc(h: seq<Buffered>, k: nat, b: Buffered)
    requires k <= LossyCount(h)
    ensures DropLossy(h + [b], k) == DropLossy(h, k) + [b]
  {
    if k > 0 {
      CountCons(h);
      assert (h + [b])[1..] == h[1..] + [b];
      DropSnoc(h[1..], if Lossy(h[0].event) then k - 1 else k, b);
    }
  }

  /** Dropping `k` and then the oldest lossy entry left is dropping one more. */
  lemma {:induction false} DropOneMore(h: seq<Buffered>, k: nat)
    requires k <= LossyCount(h)
    ensures DropLossy(DropLossy(h, k), 1) == DropLossy(h, k + 1)
    ensures LossyCount(DropLossy(h, k)) == LossyCount(h) - k
    decreases |h|
  {
    if k > 0 && h != [] {
      CountCons(h);
      if Lossy(h[0].event) {
        DropOneMore(h[1..], k - 1);
      } else {
        DropOneMore(h[1..], k);
        assert DropLossy(h, k)[1..] == DropLossy(h[1..], k);
        CountCons(DropLossy(h, k));
      }
    }
  }

  lemma {:induction false} DropAt(h: seq<Buffered>, i: nat)
    requires i < |h| && Lossy(h[i].event) && forall j | 0 <= j < i :: !Lossy(h[j].event)
    ensures DropLossy(h, 1) == h[..i] + h[i + 1..]
  {
    if i > 0 {
      DropAt(h[1..], i - 1);
      assert h[1..][..i - 1] == h[1..i] && h[1..][i..] == h[i + 1..];
      assert [h[0]] + h[1..i] == h[..i];
    }
  }

  lemma {:induction false} NoneLossy(h: seq<Buffered>)
    requires forall j | 0 <= j < |h| :: !Lossy(h[j].event)
    ensures LossyCount(h) == 0
  {
    if h != [] {
      NoneLossy(h[..|h| - 1]);
    }
  }
}
