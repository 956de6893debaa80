/** Every interleaving of publishing, trimming, expiry and readers on one stream job. */
module StreamReaders {
  import opened StreamLog
  import opened Options

  /** A subscriber whose request also names an unknown job has only found this one until that has been answered. */
  datatype Phase = Found | Reading | Drained | Gone {
    predicate Registered() { Reading? || Drained? }
  }

  /** `unknown` says that the request also names an unknown job, `late` that this one had been dropped before the
      reader registered. */
  datatype Reader = Reader(phase: Phase, last: int, got: seq<Buffered>, unknown: bool, late: bool)

  datatype System = System(
    published: seq<Event>, history: seq<Buffered>, status: Status, createdAt: real, finishedAt: Option<real>,
    subscribers: nat, dropped: bool, readers: map<nat, Reader>)

  function Created(now: real): System { System([], [], Pending, now, None, 0, false, map[]) }

  predicate IsExpired(s: System, now: real) {
    if s.subscribers > 0 then false
    else if s.status.Ended() then s.finishedAt.Some? && now - s.finishedAt.value >= POST_JOB_TTL
    else if s.status.Pending? then now - s.createdAt >= POST_JOB_TTL
    else false
  }

  datatype Step =
    | Publish(event: Event)
    | Start(now: real)
    | Finish(status: Status, at: real)
    | Lookup(r: nat, now: real, unknown: bool)
    | Register(r: nat)
    | Read(r: nat)
    | Release(r: nat)
    | Expire(now: real)

  function ReadNext(s: System, reader: Reader): Reader {
    var b := NextAfter(s.history, reader.last);
    if b.None? then if s.status.Ended() then reader.(phase := Drained) else reader
    else reader.(phase := if Terminal(b.value.event) then Drained else Reading,
                 last := b.value.seqNo, got := reader.got + [b.value])
  }

  function Next(s: System, step: Step): System {
    match step
    case Publish(e) =>
      if s.dropped then s else s.(published := s.published + [e], history := Retained(s.published + [e]))
    case Start(now) => if s.dropped || IsExpired(s, now) then s else s.(status := Running)
    case Finish(status, at) =>
      if s.dropped || !status.Ended() then s else s.(status := status, finishedAt := Some(at))
    case Lookup(r, now, unknown) =>
      if s.dropped || IsExpired(s, now) || r in s.readers then s
      else if unknown then s.(readers := s.readers[r := Reader(Found, -1, [], true, false)])
      else s.(readers := s.readers[r := Reader(Reading, -1, [], false, false)], subscribers := s.subscribers + 1)
    case Register(r) =>
      if r in s.readers && s.readers[r].phase == Found
      then s.(readers := s.readers[r := s.readers[r].(phase := Reading, late := s.dropped)],
              subscribers := s.subscribers + 1)
      else s
    case Read(r) =>
      if r in s.readers && s.readers[r].phase == Reading
      then s.(readers := s.readers[r := ReadNext(s, s.readers[r])])
      else s
    case Release(r) =>
      if r in s.readers && s.readers[r].phase.Registered()
      then s.(readers := s.readers[r := s.readers[r].(phase := Gone)],
              subscribers := if s.subscribers > 0 then s.subscribers - 1 else 0)
      else s
    case Expire(now) => if !s.dropped && IsExpired(s, now) then s.(dropped := true, history := []) else s
  }

  function Run(s: System, steps: seq<Step>): System {
    if steps == [] then s else Next(Run(s, steps[..|steps| - 1]), steps[|steps| - 1])
  }

  function Lossless(h: seq<Buffered>): seq<Buffered> {
    if h == [] then [] else Lossless(h[..|h| - 1]) + if Lossy(h[|h| - 1].event) then [] else [h[|h| - 1]]
  }

  /** Strictly increasing numbers, each event as it was published, and every lossless one up to the cursor once. */
  predicate Faithful(published: seq<Event>, last: int, got: seq<Buffered>) {
    && -1 <= last < |published|
    && Ascending(got)
    && (forall i | 0 <= i < |got| :: got[i].seqNo <= last && got[i] == Numbered(published)[got[i].seqNo])
    && Lossless(got) == Lossless(Numbered(published)[..last + 1])
  }

  function Registered(s: System): set<nat> { set r | r in s.readers && s.readers[r].phase.Registered() }

  predicate ReaderInv(published: seq<Event>, dropped: bool, reader: Reader) {
    && (reader.phase.Found? ==> reader.last == -1 && reader.got == [] && reader.unknown && !reader.late)
    && (!reader.phase.Found? && !reader.late ==> Faithful(published, reader.last, reader.got))
    && (reader.phase.Registered() && !reader.late ==> !dropped)
    && (reader.late ==> dropped && reader.got == [] && reader.unknown)
  }

  predicate Inv(s: System) {
    && s.history == (if s.dropped then [] else Retained(s.published))
    && s.subscribers == |Registered(s)|
    && forall r | r in s.readers :: ReaderInv(s.published, s.dropped, s.readers[r])
  }

  predicate Ascending(h: seq<Buffered>) { forall i, j | 0 <= i < j < |h| :: h[i].seqNo < h[j].seqNo }

  /** Only lossy entries are missing between the cursor and the next entry of a trimmed log. */
  lemma {:induction false} NextSkipsLossy(h: seq<Buffered>, k: nat, last: int) returns (i: nat)
    requires Ascending(h)
    ensures i <= |h| && forall j | 0 <= j < i && h[j].seqNo > last :: Lossy(h[j].event)
    ensures var b := NextAfter(DropLossy(h, k), last);
      if b.None? then i == |h| else i < |h| && b.value == h[i] && h[i].seqNo > last
    decreases |h|
  {
    if h == [] {
      i := 0;
    } else if k > 0 && Lossy(h[0].event) {
      i := NextSkipsLossy(h[1..], k - 1, last);
      i := i + 1;
    } else if h[0].seqNo > last {
      i := 0;
    } else {
      if k > 0 { assert DropLossy(h, k)[1..] == DropLossy(h[1..], k); }
      i := NextSkipsLossy(h[1..], k, last);
      i := i + 1;
    }
  }

  lemma {:induction false} LosslessGap(h: seq<Buffered>, a: nat, b: nat)
    requires a <= b <= |h| && forall j | a <= j < b :: Lossy(h[j].event)
    ensures Lossless(h[..b]) == Lossless(h[..a])
  {
    if a < b {
      LosslessGap(h, a, b - 1);
      assert h[..b][..b - 1] == h[..b - 1];
    }
  }

  lemma LosslessSnoc(h: seq<Buffered>, b: Buffered)
    ensures Lossless(h + [b]) == Lossless(h) + if Lossy(b.event) then [] else [b]
  {
    assert (h + [b])[..|h|] == h;
  }

  /** Between the cursor and the next retained entry nothing lossless was published. */
  lemma NextAfterCursor(published: seq<Event>, last: int) returns (i: nat)
    requires -1 <= last < |published|
    ensures last < i <= |published|
    ensures var b := NextAfter(Retained(published), last);
      if b.None? then i == |published| else i < |published| && b.value == Numbered(published)[i]
    ensures Lossless(Numbered(published)[..i]) == Lossless(Numbered(published)[..last + 1])
  {
    var all := Numbered(published);
    i := NextSkipsLossy(all, Surplus(published), last);
    LosslessGap(all, last + 1, i);
  }

  lemma TakeLossless(all: seq<Buffered>, got: seq<Buffered>, i: nat)
    requires i < |all| && Lossless(got) == Lossless(all[..i])
    ensures Lossless(got + [all[i]]) == Lossless(all[..i + 1])
  {
    assert all[..i + 1] == all[..i] + [all[i]];
    LosslessSnoc(all[..i], all[i]);
    LosslessSnoc(got, all[i]);
  }

  lemma TakeNext(published: seq<Event>, last: int, got: seq<Buffered>, i: nat)
    requires Faithful(published, last, got) && last < i < |published|
    requires Lossless(Numbered(published)[..i]) == Lossless(Numbered(published)[..last + 1])
    ensures Faithful(published, i, got + [Numbered(published)[i]])
  {
    assert Lossless(got + [Numbered(published)[i]]) == Lossless(Numbered(published)[..i + 1]) by {
      TakeLossless(Numbered(published), got, i);
    }
    AscendingSnoc(got, Buffered(i, published[i]), last);
  }

  lemma AscendingSnoc(got: seq<Buffered>, b: Buffered, last: int)
    requires Ascending(got) && last < b.seqNo && forall i | 0 <= i < |got| :: got[i].seqNo <= last
    ensures Ascending(got + [b])
  {}

  /** A reader of a live log moves to the next retained event; without one it has everything lossless. */
  lemma ReadIsFaithful(s: System, reader: Reader)
    requires s.history == Retained(s.published) && Faithful(s.published, reader.last, reader.got)
    ensures var after := ReadNext(s, reader); Faithful(s.published, after.last, after.got)
    ensures NextAfter(s.history, reader.last).None? ==> Lossless(reader.got) == Lossless(Numbered(s.published))
  {
    var i := NextAfterCursor(s.published, reader.last);
    if i < |s.published| {
      TakeNext(s.published, reader.last, reader.got, i);
    } else {
      assert Numbered(s.published)[..i] == Numbered(s.published);
    }
  }

  lemma PublishKeepsFaithful(published: seq<Event>, e: Event, last: int, got: seq<Buffered>)
    requires Faithful(published, last, got)
    ensures Faithful(published + [e], last, got)
  {
    NumberedSnoc(published, e);
    assert Numbered(published + [e])[..last + 1] == Numbered(published)[..last + 1];
  }

  lemma PublishKeepsInv(s: System, e: Event)
    requires Inv(s)
    ensures Inv(Next(s, Publish(e)))
  {
    var s' := Next(s, Publish(e));
    assert Registered(s') == Registered(s);
    forall r | r in s'.readers ensures ReaderInv(s'.published, s'.dropped, s'.readers[r]) {
      if !s.readers[r].phase.Found? && !s.readers[r].late && s' != s {
        PublishKeepsFaithful(s.published, e, s.readers[r].last, s.readers[r].got);
      }
    }
  }

  lemma RegisteredAfter(s: System, s': System, r: nat, reader: Reader)
    requires s'.readers == s.readers[r := reader]
    ensures Registered(s') == if reader.phase.Registered() then Registered(s) + {r} else Registered(s) - {r}
  {}

  /** A step that changes one reader keeps the invariant if it keeps that reader's account and the subscriber count. */
  lemma OneReader(s: System, r: nat, reader: Reader, subscribers: nat)
    requires Inv(s) && ReaderInv(s.published, s.dropped, reader)
    requires var before := r in s.readers && s.readers[r].phase.Registered();
      subscribers + (if before then 1 else 0) == s.subscribers + if reader.phase.Registered() then 1 else 0
    ensures Inv(s.(readers := s.readers[r := reader], subscribers := subscribers))
  {
    var s' := s.(readers := s.readers[r := reader], subscribers := subscribers);
    RegisteredAfter(s, s', r, reader);
    forall q | q in s'.readers ensures ReaderInv(s'.published, s'.dropped, s'.readers[q]) {
      if q != r { assert ReaderInv(s.published, s.dropped, s.readers[q]); }
    }
  }

  lemma NewReader(published: seq<Event>)
    ensures Faithful(published, -1, [])
  {
    assert Numbered(published)[..0] == [];
  }

  lemma RegisterKeepsInv(s: System, r: nat)
    requires Inv(s) && r in s.readers && s.readers[r].phase == Found
    ensures Inv(Next(s, Register(r)))
  {
    var reader := s.readers[r].(phase := Reading, late := s.dropped);
    NowReading(s.published, s.dropped, s.readers[r]);
    RegisterIs(s, r);
    OneReader(s, r, reader, s.subscribers + 1);
  }

  lemma NowReading(published: seq<Event>, dropped: bool, reader: Reader)
    requires ReaderInv(published, dropped, reader) && reader.phase == Found
    ensures ReaderInv(published, dropped, reader.(phase := Reading, late := dropped))
  {
    NewReader(published);
  }

  lemma RegisterIs(s: System, r: nat)
    requires r in s.readers && s.readers[r].phase == Found
    ensures Next(s, Register(r)) == s.(readers := s.readers[r := s.readers[r].(phase := Reading, late := s.dropped)],
                                       subscribers := s.subscribers + 1)
  {}

  /** With no unknown job to answer for, looking the job up and registering are one stretch. */
  lemma LookupKeepsInv(s: System, r: nat, now: real, unknown: bool)
    requires Inv(s) && !s.dropped && !IsExpired(s, now) && r !in s.readers
    ensures Inv(Next(s, Lookup(r, now, unknown)))
  {
    NewReader(s.published);
    if unknown {
      OneReader(s, r, Reader(Found, -1, [], true, false), s.subscribers);
    } else {
      OneReader(s, r, Reader(Reading, -1, [], false, false), s.subscribers + 1);
    }
  }

  lemma ReadNextInv(s: System, reader: Reader)
    requires s.history == (if s.dropped then [] else Retained(s.published))
    requires reader.phase == Reading && ReaderInv(s.published, s.dropped, reader)
    ensures ReaderInv(s.published, s.dropped, ReadNext(s, reader)) && ReadNext(s, reader).phase.Registered()
  {
    if !reader.late { ReadIsFaithful(s, reader); }
  }

  lemma ReadIs(s: System, r: nat)
    requires r in s.readers && s.readers[r].phase == Reading
    ensures Next(s, Read(r))
         == s.(readers := s.readers[r := ReadNext(s, s.readers[r])], subscribers := s.subscribers)
  {}

  lemma ReadKeepsInv(s: System, r: nat)
    requires Inv(s) && r in s.readers && s.readers[r].phase == Reading
    ensures Inv(Next(s, Read(r)))
  {
    var after := ReadNext(s, s.readers[r]);
    ReadNextInv(s, s.readers[r]);
    ReadIs(s, r);
    OneReader(s, r, after, s.subscribers);
  }

  lemma ReleaseKeepsInv(s: System, r: nat)
    requires Inv(s) && r in s.readers && s.readers[r].phase.Registered()
    ensures Inv(Next(s, Release(r)))
  {
    var gone := s.readers[r].(phase := Gone);
    assert ReaderInv(s.published, s.dropped, s.readers[r]) && r in Registered(s);
    ReleaseIs(s, r);
    OneReader(s, r, gone, s.subscribers - 1);
  }

  lemma ReleaseIs(s: System, r: nat)
    requires s.subscribers > 0 && r in s.readers && s.readers[r].phase.Registered()
    ensures Next(s, Release(r))
         == s.(readers := s.readers[r := s.readers[r].(phase := Gone)], subscribers := s.subscribers - 1)
  {}

  lemma ExpireKeepsInv(s: System, now: real)
    requires Inv(s) && IsExpired(s, now)
    ensures Inv(Next(s, Expire(now)))
  {
    var s' := Next(s, Expire(now));
    assert Registered(s') == Registered(s) == {};
    forall r | r in s'.readers ensures ReaderInv(s'.published, s'.dropped, s'.readers[r]) {
      assert r !in Registered(s);
    }
  }

  lemma NextKeepsInv(s: System, step: Step)
    requires Inv(s)
    ensures Inv(Next(s, step))
  {
    if Next(s, step) != s {
      match step {
        case Publish(e) => PublishKeepsInv(s, e);
        case Finish(_, _) => assert Registered(Next(s, step)) == Registered(s);
        case Start(_) => assert Registered(Next(s, step)) == Registered(s);
        case Lookup(r, now, unknown) => LookupKeepsInv(s, r, now, unknown);
        case Register(r) => RegisterKeepsInv(s, r);
        case Read(r) => ReadKeepsInv(s, r);
        case Release(r) => ReleaseKeepsInv(s, r);
        case Expire(now) => ExpireKeepsInv(s, now);
      }
    }
  }

  lemma {:induction false} RunKeepsInv(now: real, steps: seq<Step>)
    ensures Inv(Run(Created(now), steps))
  {
    if steps == [] {
      assert Registered(Created(now)) == {};
    } else {
      RunKeepsInv(now, steps[..|steps| - 1]);
      NextKeepsInv(Run(Created(now), steps[..|steps| - 1]), steps[|steps| - 1]);
    }
  }

  predicate HasReader(s: System, r: nat) { r in s.readers && !s.readers[r].phase.Found? }

  /** Whatever is published, trimmed and expired around it, a reader misses no lossless event up to its cursor and reads
      none twice, and its job is not dropped under it, unless its request also named an unknown job and this one was
      dropped before that had been answered. */
  lemma RegisteredReaderMissesNothing(now: real, steps: seq<Step>, r: nat)
    requires var s := Run(Created(now), steps); HasReader(s, r) && (s.readers[r].unknown ==> !s.readers[r].late)
    ensures var s := Run(Created(now), steps);
      && Faithful(s.published, s.readers[r].last, s.readers[r].got)
      && (s.readers[r].phase.Registered() ==> s.history == Retained(s.published))
  {
    RunKeepsInv(now, steps);
  }

  /** The log has nothing further for reader `r`, whose request named an unknown job or did not. */
  predicate RunOut(s: System, r: nat, unknown: bool) {
    && r in s.readers && s.readers[r].unknown == unknown && s.readers[r].phase.Registered()
    && NextAfter(s.history, s.readers[r].last).None?
  }

  predicate HasEverything(s: System, r: nat)
    requires r in s.readers
  {
    Lossless(s.readers[r].got) == Lossless(Numbered(s.published))
  }

  /** In one run, a reader for which the log ran out has everything lossless unless it registered too late for any. */
  lemma OnlyLateReadersMiss(now: real, steps: seq<Step>, r: nat)
    requires var s := Run(Created(now), steps); r in s.readers && RunOut(s, r, s.readers[r].unknown)
    ensures var s := Run(Created(now), steps);
      HasEverything(s, r) <==> (!s.readers[r].late || Lossless(Numbered(s.published)) == [])
    ensures var s := Run(Created(now), steps); s.readers[r].late ==> s.readers[r].unknown
  {
    RunKeepsInv(now, steps);
    var s := Run(Created(now), steps);
    if !s.readers[r].late {
      ReadIsFaithful(s, s.readers[r]);
    }
  }

  /** A reader for which the log runs out has read every lossless event there is, in every run. */
  ghost predicate AlwaysHasEverything(unknown: bool) {
    forall now, steps, r: nat | RunOut(Run(Created(now), steps), r, unknown) ::
      HasEverything(Run(Created(now), steps), r)
  }

  /** Readers are sure to get everything lossless exactly when their request names known jobs only. */
  lemma DrainedReaderHasEverything(unknown: bool)
    ensures AlwaysHasEverything(unknown) <==> !unknown
  {
    if unknown {
      var steps := LateReaderExists();
      assert RunOut(Run(Created(0.0), steps), 0, true) && !HasEverything(Run(Created(0.0), steps), 0);
    } else {
      forall now, steps, r: nat | RunOut(Run(Created(now), steps), r, false)
        ensures HasEverything(Run(Created(now), steps), r)
      {
        OnlyLateReadersMiss(now, steps, r);
      }
    }
  }

  lemma RunStep(s: System, steps: seq<Step>, step: Step)
    ensures Run(s, steps + [step]) == Next(Run(s, steps), step)
  {
    assert (steps + [step])[..|steps|] == steps;
  }

  /** With an unknown job to answer for first, a finished job can expire between being looked up and registered with. */
  lemma LateReaderExists() returns (steps: seq<Step>)
    ensures var s := Run(Created(0.0), steps);
      && 0 in s.readers && RunOut(s, 0, true) && s.readers[0].phase == Drained && s.readers[0].got == []
      && Lossless(Numbered(s.published)) == [Buffered(0, Event("ids", "page 1"))]
  {
    var ids := Event("ids", "page 1");
    var s0 := Created(0.0);
    var s1 := s0.(status := Running);
    var s2 := s1.(published := [ids], history := Retained([ids]));
    var s3 := s2.(status := Complete, finishedAt := Some(0.0));
    var s4 := s3.(readers := map[0 := Reader(Found, -1, [], true, false)]);
    var s5 := s4.(dropped := true, history := []);
    var s6 := s5.(readers := map[0 := Reader(Reading, -1, [], true, true)], subscribers := 1);
    var s7 := s6.(readers := map[0 := Reader(Drained, -1, [], true, true)]);
    assert [] + [ids] == [ids];
    assert Next(s0, Start(0.0)) == s1;
    assert Next(s1, Publish(ids)) == s2;
    assert Next(s2, Finish(Complete, 0.0)) == s3;
    assert Next(s3, Lookup(0, 10.0, true)) == s4;
    assert Next(s4, Expire(90.0)) == s5;
    assert Next(s5, Register(0)) == s6;
    assert Next(s6, Read(0)) == s7;
    steps := [];
    steps := StepTo(s0, steps, Start(0.0), s1);
    steps := StepTo(s0, steps, Publish(ids), s2);
    steps := StepTo(s0, steps, Finish(Complete, 0.0), s3);
    steps := StepTo(s0, steps, Lookup(0, 10.0, true), s4);
    steps := StepTo(s0, steps, Expire(90.0), s5);
    steps := StepTo(s0, steps, Register(0), s6);
    steps := StepTo(s0, steps, Read(0), s7);
    OneLossless(ids);
  }

  lemma StepTo(s: System, steps: seq<Step>, step: Step, s': System) returns (more: seq<Step>)
    requires Next(Run(s, steps), step) == s'
    ensures Run(s, more) == s'
  {
    more := steps + [step];
    RunStep(s, steps, step);
  }

  lemma OneLossless(e: Event)
    requires !Lossy(e)
    ensures Lossless(Numbered([e])) == [Buffered(0, e)]
  {
    assert Numbered([e]) == [] + [Buffered(0, e)];
    LosslessSnoc([], Buffered(0, e));
  }

  /** Nobody is registered, and the job ended 90 seconds ago or has been waiting to start for as long. */
  predicate LeftAlone(s: System, now: real) {
    && (forall r | r in s.readers :: !s.readers[r].phase.Registered())
    && ((s.status in {Complete, Error} && s.finishedAt.Some? && now - s.finishedAt.value >= 90.0)
        || (s.status == Pending && now - s.createdAt >= 90.0))
  }

  /** A job is dropped exactly when it has been left alone for long enough. */
  lemma DroppedExactly(start: real, steps: seq<Step>, now: real)
    ensures var s := Run(Created(start), steps); Next(s, Expire(now)).dropped <==> s.dropped || LeftAlone(s, now)
  {
    RunKeepsInv(start, steps);
    DroppedWhen(Run(Created(start), steps), now);
  }

  lemma DroppedWhen(s: System, now: real)
    requires s.subscribers == |Registered(s)|
    ensures Next(s, Expire(now)).dropped <==> s.dropped || LeftAlone(s, now)
  {
    NobodyRegistered(s);
  }

  lemma NobodyRegistered(s: System)
    requires s.subscribers == |Registered(s)|
    ensures s.subscribers == 0 <==> forall r | r in s.readers :: !s.readers[r].phase.Registered()
  {
    if s.subscribers == 0 {
      forall r | r in s.readers ensures !s.readers[r].phase.Registered() { assert r !in Registered(s); }
    } else {
      assert Registered(s) != {};
    }
  }

  // ----- when a reader has done with a job -----

  /** The first entry past the cursor. */
  predicate Upcoming(h: seq<Buffered>, last: int, b: Buffered) {
    b in h && b.seqNo > last && forall c | c in h && c.seqNo > last :: b.seqNo <= c.seqNo
  }

  predicate NothingAfter(h: seq<Buffered>, last: int) { forall c | c in h :: c.seqNo <= last }

  lemma HeadIsFirst(h: seq<Buffered>)
    requires Ascending(h) && h != []
    ensures Ascending(h[1..]) && (forall c | c in h[1..] :: h[0].seqNo < c.seqNo)
    ensures forall c :: c in h <==> c == h[0] || c in h[1..]
  {
    assert h == [h[0]] + h[1..];
    forall c | c in h[1..] ensures h[0].seqNo < c.seqNo {
      var j :| 0 <= j < |h| - 1 && h[1..][j] == c;
      assert h[j + 1] == c;
    }
  }

  lemma {:induction false} NextAfterMeaning(h: seq<Buffered>, last: int)
    requires Ascending(h)
    ensures match NextAfter(h, last) case None => NothingAfter(h, last) case Some(b) => Upcoming(h, last, b)
  {
    if h != [] {
      HeadIsFirst(h);
      NextAfterMeaning(h[1..], last);
    }
  }

  lemma {:induction false} DropAscending(h: seq<Buffered>, k: nat)
    requires Ascending(h)
    ensures Ascending(DropLossy(h, k))
    decreases |h|
  {
    if k > 0 && h != [] {
      var rest := if Lossy(h[0].event) then k - 1 else k;
      DropAscending(h[1..], rest);
      DropMembers(h[1..], rest);
      var d := DropLossy(h[1..], rest);
      HeadIsFirst(h);
      forall i | 0 <= i < |d| ensures h[0].seqNo < d[i].seqNo { assert d[i] in h[1..]; }
    }
  }

  /** The reader finds a complete or error event next, or nothing further from a job that has ended. */
  predicate Finishing(s: System, r: nat) {
    && r in s.readers && s.readers[r].phase == Reading
    && ((exists b ::
           b in s.history && Upcoming(s.history, s.readers[r].last, b) && b.event.kind in {"complete", "error"})
        || (NothingAfter(s.history, s.readers[r].last) && s.status in {Complete, Error}))
  }

  lemma HistoryAscends(s: System)
    requires Inv(s)
    ensures Ascending(s.history)
  {
    if !s.dropped { DropAscending(Numbered(s.published), Surplus(s.published)); }
  }

  lemma OneUpcoming(h: seq<Buffered>, last: int, b: Buffered, c: Buffered)
    requires Ascending(h) && Upcoming(h, last, b) && Upcoming(h, last, c)
    ensures b == c
  {
    var i :| 0 <= i < |h| && h[i] == b;
    var j :| 0 <= j < |h| && h[j] == c;
  }

  lemma FinishingMeaning(s: System, r: nat)
    requires Ascending(s.history) && r in s.readers && s.readers[r].phase == Reading
    ensures Finishing(s, r) <==> match NextAfter(s.history, s.readers[r].last)
                                 case None => s.status in {Complete, Error}
                                 case Some(b) => b.event.kind in {"complete", "error"}
  {
    var h, last := s.history, s.readers[r].last;
    NextAfterMeaning(h, last);
    match NextAfter(h, last)
    case None =>
    case Some(b) =>
      forall c | c in h && Upcoming(h, last, c) ensures c == b { OneUpcoming(h, last, b, c); }
  }

  lemma NextIsUpcoming(s: System, reader: Reader)
    requires Ascending(s.history)
    ensures var t := ReadNext(s, reader);
      && (forall b | Upcoming(s.history, reader.last, b) :: t.got == reader.got + [b] && t.last == b.seqNo)
      && (NothingAfter(s.history, reader.last) ==> t.got == reader.got && t.last == reader.last)
  {
    var h, last := s.history, reader.last;
    var next := NextAfter(h, last);
    NextAfterMeaning(h, last);
    forall b | Upcoming(h, last, b) ensures next == Some(b) {
      if next.Some? { OneUpcoming(h, last, b, next.value); }
    }
  }

  lemma ReadIsNext(s: System, r: nat)
    requires r in s.readers && s.readers[r].phase == Reading
    ensures Next(s, Read(r)).readers[r] == ReadNext(s, s.readers[r])
  {}

  /** A read takes the first entry past the cursor if there is one, and is the last exactly when it finishes. */
  lemma ReadTakes(s: System, r: nat)
    requires Ascending(s.history) && r in s.readers && s.readers[r].phase == Reading
    ensures var t, was := Next(s, Read(r)).readers[r], s.readers[r];
      && (forall b | Upcoming(s.history, was.last, b) :: t.got == was.got + [b] && t.last == b.seqNo)
      && (NothingAfter(s.history, was.last) ==> t.got == was.got && t.last == was.last)
      && t.phase == (if Finishing(s, r) then Drained else Reading) && t.late == was.late
  {
    FinishingMeaning(s, r);
    NextIsUpcoming(s, s.readers[r]);
    ReadIsNext(s, r);
  }

  lemma RunAscends(now: real, steps: seq<Step>)
    ensures Ascending(Run(Created(now), steps).history)
  {
    RunKeepsInv(now, steps);
    HistoryAscends(Run(Created(now), steps));
  }

  /** Only a read makes a reader done, and it leaves that state only by going. */
  lemma DoneByReading(s: System, step: Step, r: nat)
    requires var t := Next(s, step); r in t.readers && t.readers[r].phase == Drained
    ensures r in s.readers && s.readers[r].phase in {Reading, Drained}
    ensures if s.readers[r].phase == Reading then step == Read(r) else Next(s, step).readers[r] == s.readers[r]
  {}

  lemma FinishingEnds(s: System, r: nat)
    requires Ascending(s.history) && Finishing(s, r)
    ensures r in Next(s, Read(r)).readers && Next(s, Read(r)).readers[r].phase == Drained
  {
    ReadTakes(s, r);
  }

  lemma DoneStays(s: System, step: Step, r: nat)
    requires r in s.readers && s.readers[r].phase in {Drained, Gone}
    ensures r in Next(s, step).readers && Next(s, step).readers[r].phase in {Drained, Gone}
  {}

  /** Reading goes on until a read that finishes; afterwards the reader's account stays as that read left it. */
  lemma {:induction false} DrainedWhen(now: real, steps: seq<Step>, r: nat) returns (n: nat)
    requires var s := Run(Created(now), steps); r in s.readers && s.readers[r].phase == Drained
    ensures n < |steps| && steps[n] == Read(r) && Finishing(Run(Created(now), steps[..n]), r)
    ensures Run(Created(now), steps).readers[r] == Next(Run(Created(now), steps[..n]), Read(r)).readers[r]
  {
    var front, step := steps[..|steps| - 1], steps[|steps| - 1];
    var s := Run(Created(now), front);
    DoneByReading(s, step, r);
    if s.readers[r].phase == Drained {
      n := DrainedWhen(now, front, r);
      assert front[..n] == steps[..n];
    } else {
      n := |front|;
      RunAscends(now, front);
      ReadTakes(s, r);
    }
  }

  lemma FrontPrefix(steps: seq<Step>, n: nat)
    requires n < |steps|
    ensures steps[..|steps| - 1][..n] == steps[..n]
  {}

  lemma {:induction false} StaysDrained(now: real, steps: seq<Step>, r: nat, n: nat)
    requires n < |steps| && steps[n] == Read(r) && Finishing(Run(Created(now), steps[..n]), r)
    ensures var s := Run(Created(now), steps); r in s.readers && s.readers[r].phase in {Drained, Gone}
  {
    var front := steps[..|steps| - 1];
    if n < |front| {
      FrontPrefix(steps, n);
      StaysDrained(now, front, r, n);
      DoneStays(Run(Created(now), front), steps[|steps| - 1], r);
    } else {
      assert n == |front|;
      RunAscends(now, front);
      FinishingEnds(Run(Created(now), front), r);
    }
  }

  /** A reader that stays registered is done exactly when one of its reads has finished: it has then taken a complete
      or error event, or the job had ended with nothing further in its log. */
  lemma DrainedExactly(now: real, steps: seq<Step>, r: nat)
    requires var s := Run(Created(now), steps); r in s.readers && s.readers[r].phase.Registered()
    ensures Run(Created(now), steps).readers[r].phase == Drained <==>
      exists n :: 0 <= n < |steps| && steps[n] == Read(r) && Finishing(Run(Created(now), steps[..n]), r)
  {
    if Run(Created(now), steps).readers[r].phase == Drained {
      var n := DrainedWhen(now, steps, r);
    } else {
      forall n | 0 <= n < |steps| && steps[n] == Read(r) ensures !Finishing(Run(Created(now), steps[..n]), r) {
        if Finishing(Run(Created(now), steps[..n]), r) { StaysDrained(now, steps, r, n); }
      }
    }
  }

  /** What a reader that is done has: a complete or error event last, or everything lossless that had been published
      when it read for the last time, with the job ended by then. */
  lemma DrainedHas(now: real, steps: seq<Step>, r: nat) returns (n: nat)
    requires var s := Run(Created(now), steps); r in s.readers && s.readers[r].phase == Drained && !s.readers[r].late
    ensures n < |steps|
    ensures var then_, got := Run(Created(now), steps[..n]), Run(Created(now), steps).readers[r].got;
      || (got != [] && got[|got| - 1].event.kind in {"complete", "error"})
      || (Lossless(got) == Lossless(Numbered(then_.published)) && then_.status in {Complete, Error})
  {
    n := DrainedWhen(now, steps, r);
    var then_ := Run(Created(now), steps[..n]);
    RunKeepsInv(now, steps[..n]);
    HistoryAscends(then_);
    FinishingMeaning(then_, r);
    ReadTakes(then_, r);
    LiveReader(then_, r);
    LastRead(then_, r);
  }

  lemma LiveReader(s: System, r: nat)
    requires Inv(s) && r in s.readers && s.readers[r].phase == Reading && !s.readers[r].late
    ensures s.history == Retained(s.published) && Faithful(s.published, s.readers[r].last, s.readers[r].got)
  {
    assert ReaderInv(s.published, s.dropped, s.readers[r]);
  }

  lemma LastRead(s: System, r: nat)
    requires Finishing(s, r) && Ascending(s.history) && s.history == Retained(s.published)
    requires Faithful(s.published, s.readers[r].last, s.readers[r].got)
    ensures var got := Next(s, Read(r)).readers[r].got;
      || (got != [] && got[|got| - 1].event.kind in {"complete", "error"})
      || (Lossless(got) == Lossless(Numbered(s.published)) && s.status in {Complete, Error})
  {
    ReadIsNext(s, r);
    ReadIsFaithful(s, s.readers[r]);
    FinishingMeaning(s, r);
  }

  lemma RetainedOne(e: Event)
    ensures Retained([e]) == [Buffered(0, e)]
  {
    assert Numbered([e]) == [Buffered(0, e)];
    CountSnoc([], Buffered(0, e));
    assert [] + [Buffered(0, e)] == [Buffered(0, e)];
  }

  /** A job can be published to after it has ended, so a reader may be done while its log goes on. */
  lemma PublishedTooLate() returns (steps: seq<Step>)
    ensures var s := Run(Created(0.0), steps);
      && 0 in s.readers && s.readers[0].phase == Drained && !s.readers[0].late && s.readers[0].got == []
      && s.history == [Buffered(0, Event("ids", "page 1"))]
  {
    var ids := Event("ids", "page 1");
    var s0 := Created(0.0);
    var s1 := s0.(readers := map[0 := Reader(Reading, -1, [], false, false)], subscribers := 1);
    var s2 := s1.(status := Complete, finishedAt := Some(0.0));
    var s3 := s2.(readers := map[0 := Reader(Drained, -1, [], false, false)]);
    var s4 := s3.(published := [ids], history := [Buffered(0, ids)]);
    assert Next(s0, Lookup(0, 0.0, false)) == s1;
    assert Next(s1, Finish(Complete, 0.0)) == s2;
    assert Next(s2, Read(0)) == s3;
    assert Next(s3, Publish(ids)) == s4 by {
      RetainedOne(ids);
      assert [] + [ids] == [ids];
    }
    steps := [];
    steps := StepTo(s0, steps, Lookup(0, 0.0, false), s1);
    steps := StepTo(s0, steps, Finish(Complete, 0.0), s2);
    steps := StepTo(s0, steps, Read(0), s3);
    steps := StepTo(s0, steps, Publish(ids), s4);
  }

  // ----- by the kinds of events -----

  /** The kinds a log may lose. */
  const DROPPABLE := {"progress", "embedding_progress", "throttled"}

  lemma {:induction false} LosslessMembers(h: seq<Buffered>)
    ensures forall b :: b in Lossless(h) <==> b in h && b.event.kind !in DROPPABLE
  {
    if h != [] {
      LosslessMembers(h[..|h| - 1]);
      assert h == h[..|h| - 1] + [h[|h| - 1]];
    }
  }

  lemma FaithfulHas(published: seq<Event>, last: int, got: seq<Buffered>, i: nat)
    requires Faithful(published, last, got) && i <= last && published[i].kind !in DROPPABLE
    ensures Buffered(i, published[i]) in got
  {
    var upTo := Numbered(published)[..last + 1];
    assert upTo[i] == Buffered(i, published[i]);
    LosslessMembers(upTo);
    LosslessMembers(got);
  }

  /** Any event but a progress, embedding-progress or throttling one reaches every reader whose cursor has passed it. */
  lemma ReaderGetsEvery(now: real, steps: seq<Step>, r: nat, i: nat)
    requires var s := Run(Created(now), steps);
      && HasReader(s, r) && !s.readers[r].late && i <= s.readers[r].last && i < |s.published|
      && s.published[i].kind !in DROPPABLE
    ensures var s := Run(Created(now), steps); Buffered(i, s.published[i]) in s.readers[r].got
  {
    RegisteredReaderMissesNothing(now, steps, r);
    var s := Run(Created(now), steps);
    FaithfulHas(s.published, s.readers[r].last, s.readers[r].got, i);
  }

  // ----- what the log retains -----

  lemma {:induction false} CountSplit(h: seq<Buffered>, i: nat)
    requires i <= |h|
    ensures LossyCount(h) == LossyCount(h[..i]) + LossyCount(h[i..])
    decreases |h| - i
  {
    if i < |h| {
      CountSplit(h, i + 1);
      CountCons(h[i..]);
      assert h[..i + 1][..i] == h[..i] && h[i..][1..] == h[i + 1..];
    } else {
      assert h[..i] == h && h[i..] == [];
    }
  }

  /** Places of the droppable events from the `i`th on. */
  function DroppableFrom(published: seq<Event>, i: nat): set<int> {
    set j | i <= j < |published| && published[j].kind in DROPPABLE
  }

  lemma {:induction false} CountDroppable(published: seq<Event>, i: nat)
    requires i <= |published|
    ensures LossyCount(Numbered(published)[i..]) == |DroppableFrom(published, i)|
    decreases |published| - i
  {
    var rest := Numbered(published)[i..];
    if i < |published| {
      CountDroppable(published, i + 1);
      CountCons(rest);
      assert rest[1..] == Numbered(published)[i + 1..];
      var later := DroppableFrom(published, i + 1);
      assert DroppableFrom(published, i) == if published[i].kind in DROPPABLE then {i} + later else later;
    } else {
      assert DroppableFrom(published, i) == {};
    }
  }

  /** An event is replayed unless it is a droppable one and 500 or more such have been published after it. */
  lemma ReplayedExactly(published: seq<Event>, i: nat)
    requires i < |published|
    ensures Buffered(i, published[i]) in Retained(published) <==>
      published[i].kind !in DROPPABLE || |DroppableFrom(published, i + 1)| < 500
  {
    var all := Numbered(published);
    RetainedMeaning(all, Surplus(published), i);
    CountSplit(all, i);
    CountCons(all[i..]);
    assert all[i..][1..] == all[i + 1..];
    CountDroppable(published, i + 1);
  }

  /** An entry is retained exactly when it is lossless or among the newest 500 lossy ones. */
  lemma {:induction false} RetainedMeaning(h: seq<Buffered>, k: nat, i: nat)
    requires Ascending(h) && i < |h|
    ensures h[i] in DropLossy(h, k) <==> !Lossy(h[i].event) || LossyCount(h[..i]) >= k
    decreases |h|
  {
    if k > 0 {
      var rest := if Lossy(h[0].event) then k - 1 else k;
      if i == 0 {
        DropMembers(h[1..], rest);
        assert forall j | 1 <= j < |h| :: h[j] != h[0];
      } else {
        RetainedMeaning(h[1..], rest, i - 1);
        CountCons(h[..i]);
        assert h[..i][1..] == h[1..][..i - 1];
      }
    }
  }

  lemma {:induction false} DropMembers(h: seq<Buffered>, k: nat)
    ensures forall b | b in DropLossy(h, k) :: b in h
    decreases |h|
  {
    if k > 0 && h != [] {
      DropMembers(h[1..], if Lossy(h[0].event) then k - 1 else k);
    }
  }
}
