/** The jobs service mirrors producers' lifecycle events onto one row per job. */
module JobStore {
  import opened Options

  datatype Status = Queued | Running | Paused | Scheduled | Completed | Failed | Canceled {
    predicate Terminal() { Completed? || Failed? || Canceled? }

    /** Anything past not-yet-running stamps the start of the job. */
    predicate Started() { !Queued? && !Scheduled? }
  }

  /** `ts` is None when the producer sent a timestamp that does not parse. */
  datatype Event = Event(
    jobId: string, kind: string, user: string, origin: string, actor: string, status: Status,
    progress: Option<real>, exitStatus: Option<string>, meta: map<string, string>, ts: Option<int>)

  datatype Row = Row(
    kind: string, user: string, origin: string, actor: string, status: Status,
    progress: Option<real>, exitStatus: Option<string>, meta: map<string, string>,
    startedAt: Option<int>, endedAt: Option<int>, lastEventAt: Option<int>)

  /** Column defaults of a row that no event has written yet. */
  const FRESH := Row("", "", "user", "", Queued, None, None, map[], None, None, None)

  function Or(a: string, b: string): string { if a != "" then a else b }

  function OrElse<T>(a: Option<T>, b: Option<T>): Option<T> { if a.Some? then a else b }

  /** The two guards of an upsert: terminal is absorbing, and nothing older than the newest event is applied. */
  predicate Admits(row: Row, e: Event) {
    && (row.status.Terminal() ==> e.status.Terminal())
    && (row.lastEventAt.Some? ==> e.ts.Some? && e.ts.value >= row.lastEventAt.value)
  }

  function Write(row: Row, e: Event, at: int): Row {
    Row(Or(e.kind, row.kind), Or(e.user, row.user), Or(e.origin, row.origin), Or(e.actor, row.actor), e.status,
        OrElse(e.progress, row.progress), OrElse(e.exitStatus, row.exitStatus), row.meta + e.meta,
        if e.status.Started() then OrElse(row.startedAt, Some(at)) else row.startedAt,
        if e.status.Terminal() then OrElse(row.endedAt, Some(at)) else row.endedAt,
        Some(at))
  }

  /** An event and the wall clock when it is applied; the clock matters only to events without a timestamp. */
  datatype Arrival = Arrival(event: Event, now: int) {
    function At(): int { if event.ts.Some? then event.ts.value else now }
  }

  function Apply(row: Option<Row>, a: Arrival): Option<Row> {
    if row.None? then Some(Write(FRESH, a.event, a.At()))
    else if Admits(row.value, a.event) then Some(Write(row.value, a.event, a.At()))
    else row
  }

  function Fold(row: Option<Row>, es: seq<Arrival>): Option<Row> {
    if es == [] then row else Apply(Fold(row, es[..|es| - 1]), es[|es| - 1])
  }

  // ----- the table, updated in place -----

  class Job {
    var kind: string
    var user: string
    var origin: string
    var actor: string
    var status: Status
    var progress: Option<real>
    var exitStatus: Option<string>
    var meta: map<string, string>
    var startedAt: Option<int>
    var endedAt: Option<int>
    var lastEventAt: Option<int>

    ghost function View(): Row
      reads this
    {
      Row(kind, user, origin, actor, status, progress, exitStatus, meta, startedAt, endedAt, lastEventAt)
    }

    constructor ()
      ensures View() == FRESH
    {
      kind, user, origin, actor, status := "", "", "user", "", Queued;
      progress, exitStatus, meta := None, None, map[];
      startedAt, endedAt, lastEventAt := None, None, None;
    }

    /** Overwrites the row field by field: newest wins where the event says something. */
    method Overwrite(e: Event, appliedTs: int)
      modifies this
      ensures View() == Write(old(View()), e, appliedTs)
    {
      ghost var was := View();
      kind, user, origin, actor := Or(e.kind, kind), Or(e.user, user), Or(e.origin, origin), Or(e.actor, actor);
      status, progress, exitStatus := e.status, OrElse(e.progress, progress), OrElse(e.exitStatus, exitStatus);
      meta := meta + e.meta;
      assert View() == Row(Or(e.kind, was.kind), Or(e.user, was.user), Or(e.origin, was.origin), Or(e.actor, was.actor),
                           e.status, OrElse(e.progress, was.progress), OrElse(e.exitStatus, was.exitStatus),
                           was.meta + e.meta, was.startedAt, was.endedAt, was.lastEventAt);
      if startedAt.None? && e.status.Started() { startedAt := Some(appliedTs); }
      if e.status.Terminal() && endedAt.None? { endedAt := Some(appliedTs); }
      lastEventAt := Some(appliedTs);
    }
  }

  type Table = map<string, Row>

  function Lookup(t: Table, id: string): Option<Row> { if id in t then Some(t[id]) else None }

  /** One delivery to the whole table; an event without a job id is dropped. */
  function Deliver(t: Table, a: Arrival): Table {
    if a.event.jobId == "" then t
    else t[a.event.jobId := Apply(Lookup(t, a.event.jobId), a).value]
  }

  function DeliverAll(t: Table, es: seq<Arrival>): Table {
    if es == [] then t else Deliver(DeliverAll(t, es[..|es| - 1]), es[|es| - 1])
  }

  class Store {
    var jobs: map<string, Job>

    ghost predicate Valid()
      reads this
    {
      forall i, j | i in jobs && j in jobs && i != j :: jobs[i] != jobs[j]
    }

    ghost function View(): Table
      reads this, jobs.Values
    {
      map id | id in jobs :: jobs[id].View()
    }

    method Create(e: Event, appliedTs: int)
      requires Valid() && e.jobId !in jobs
      modifies this
      ensures Valid() && fresh(jobs.Values - old(jobs.Values))
      ensures View() == old(View())[e.jobId := Write(FRESH, e, appliedTs)]
    {
      ghost var before := View();
      var job := new Job();
      job.Overwrite(e, appliedTs);
      assert job !in jobs.Values;
      assert View() == before;
      jobs := jobs[e.jobId := job];
    }

    method Update(e: Event, appliedTs: int)
      requires Valid() && e.jobId in jobs
      modifies jobs.Values
      ensures View() == old(View())[e.jobId := Write(old(View())[e.jobId], e, appliedTs)]
    {
      var job := jobs[e.jobId];
      job.Overwrite(e, appliedTs);
    }

    /** Returns whether the event was applied; a stale replay is ignored. */
    method ApplyEvent(e: Event, now: int) returns (applied: bool)
      requires Valid()
      modifies this, jobs.Values
      ensures Valid() && fresh(jobs.Values - old(jobs.Values))
      ensures View() == Deliver(old(View()), Arrival(e, now))
      ensures applied <==> e.jobId != "" && (e.jobId !in old(jobs) || Admits(old(View())[e.jobId], e))
    {
      if e.jobId == "" { return false; }
      var appliedTs := if e.ts.Some? then e.ts.value else now;
      if e.jobId !in jobs {
        Create(e, appliedTs);
        return true;
      }
      var job := jobs[e.jobId];
      assert View()[e.jobId := View()[e.jobId]] == View();
      if job.status.Terminal() && !e.status.Terminal() { return false; }
      if job.lastEventAt.Some? {
        if e.ts.None? || e.ts.value < job.lastEventAt.value { return false; }
      }
      Update(e, appliedTs);
      return true;
    }
  }

  // ----- jobs do not interfere -----

  function Only(es: seq<Arrival>, id: string): seq<Arrival> {
    if es == [] then []
    else Only(es[..|es| - 1], id) + if es[|es| - 1].event.jobId == id then [es[|es| - 1]] else []
  }

  /** However deliveries of many jobs interleave, each row is the fold of its own events. */
  lemma {:induction false} RowsAreIndependent(t: Table, es: seq<Arrival>, id: string)
    requires id != ""
    ensures Lookup(DeliverAll(t, es), id) == Fold(Lookup(t, id), Only(es, id))
  {
    if es != [] {
      var front, last := es[..|es| - 1], es[|es| - 1];
      RowsAreIndependent(t, front, id);
      if last.event.jobId == id {
        assert Only(es, id)[..|Only(es, id)| - 1] == Only(front, id);
      } else {
        assert Only(es, id) == Only(front, id);
      }
    }
  }

  // ----- what a row says of its history -----

  /** The last place of a sequence with the property, or -1. */
  function LastWith<T>(s: seq<T>, p: T -> bool): (i: int)
    ensures -1 <= i < |s| && (i >= 0 ==> p(s[i])) && forall j | i < j < |s| :: !p(s[j])
  {
    if s == [] then -1 else if p(s[|s| - 1]) then |s| - 1 else LastWith(s[..|s| - 1], p)
  }

  /** The first place of a sequence with the property, or -1. */
  function FirstWith<T>(s: seq<T>, p: T -> bool): (i: int)
    ensures -1 <= i < |s| && (i >= 0 ==> p(s[i]))
    ensures forall j | 0 <= j < (if i < 0 then |s| else i) :: !p(s[j])
  {
    if s == [] then -1
    else
      var i := FirstWith(s[..|s| - 1], p);
      if i >= 0 then i else if p(s[|s| - 1]) then |s| - 1 else -1
  }

  lemma LastWithSnoc<T>(s: seq<T>, x: T, p: T -> bool)
    ensures LastWith(s + [x], p) == if p(x) then |s| else LastWith(s, p)
  {
    assert (s + [x])[..|s|] == s;
  }

  lemma FirstWithSnoc<T>(s: seq<T>, x: T, p: T -> bool)
    ensures FirstWith(s + [x], p) == if FirstWith(s, p) < 0 && p(x) then |s| else FirstWith(s, p)
  {
    assert (s + [x])[..|s|] == s;
  }

  /** Past queueing and scheduling. */
  predicate Begun(a: Arrival) { a.event.status !in {Queued, Scheduled} }

  predicate Final(a: Arrival) { a.event.status in {Completed, Failed, Canceled} }

  predicate GivesProgress(a: Arrival) { a.event.progress.Some? }

  predicate GivesExit(a: Arrival) { a.event.exitStatus.Some? }

  predicate GivesKind(a: Arrival) { a.event.kind != "" }

  predicate GivesUser(a: Arrival) { a.event.user != "" }

  predicate GivesOrigin(a: Arrival) { a.event.origin != "" }

  predicate GivesActor(a: Arrival) { a.event.actor != "" }

  function GivesKey(k: string): Arrival -> bool { (a: Arrival) => k in a.event.meta }

  /** Names and results are the last ones given by the events `t`. */
  predicate NewestText(row: Row, t: seq<Arrival>) {
    var kind, user, origin, actor :=
      LastWith(t, GivesKind), LastWith(t, GivesUser), LastWith(t, GivesOrigin), LastWith(t, GivesActor);
    && row.kind == (if kind < 0 then "" else t[kind].event.kind)
    && row.user == (if user < 0 then "" else t[user].event.user)
    && row.origin == (if origin < 0 then "user" else t[origin].event.origin)
    && row.actor == (if actor < 0 then "" else t[actor].event.actor)
  }

  predicate NewestResult(row: Row, t: seq<Arrival>) {
    var progress, exit := LastWith(t, GivesProgress), LastWith(t, GivesExit);
    && t != [] && row.status == t[|t| - 1].event.status && row.lastEventAt == Some(t[|t| - 1].At())
    && row.progress == (if progress < 0 then None else t[progress].event.progress)
    && row.exitStatus == (if exit < 0 then None else t[exit].event.exitStatus)
  }

  /** Every key has the value of the last event that carries it, and no key comes from anywhere else. */
  ghost predicate NewestMeta(meta: map<string, string>, t: seq<Arrival>) {
    forall k: string :: var i := LastWith(t, GivesKey(k));
      (k in meta <==> i >= 0) && (i >= 0 ==> k in t[i].event.meta && meta[k] == t[i].event.meta[k])
  }

  /** Start and end are stamped by the first event past queueing and by the first final one. */
  predicate FirstStamps(row: Row, t: seq<Arrival>) {
    var start, end := FirstWith(t, Begun), FirstWith(t, Final);
    && row.startedAt == (if start < 0 then None else Some(t[start].At()))
    && row.endedAt == (if end < 0 then None else Some(t[end].At()))
  }

  ghost predicate Reflects(row: Row, t: seq<Arrival>) {
    NewestText(row, t) && NewestResult(row, t) && NewestMeta(row.meta, t) && FirstStamps(row, t)
  }

  lemma TextNext(row: Row, t: seq<Arrival>, a: Arrival)
    requires NewestText(row, t)
    ensures NewestText(Write(row, a.event, a.At()), t + [a])
  {
    LastWithSnoc(t, a, GivesKind);
    LastWithSnoc(t, a, GivesUser);
    LastWithSnoc(t, a, GivesOrigin);
    LastWithSnoc(t, a, GivesActor);
  }

  lemma ResultNext(row: Row, t: seq<Arrival>, a: Arrival)
    requires if t == [] then row.progress.None? && row.exitStatus.None? else NewestResult(row, t)
    ensures NewestResult(Write(row, a.event, a.At()), t + [a])
  {
    LastWithSnoc(t, a, GivesProgress);
    LastWithSnoc(t, a, GivesExit);
  }

  lemma MetaNext(meta: map<string, string>, t: seq<Arrival>, a: Arrival)
    requires NewestMeta(meta, t)
    ensures NewestMeta(meta + a.event.meta, t + [a])
  {
    forall k: string
      ensures LastWith(t + [a], GivesKey(k)) == if k in a.event.meta then |t| else LastWith(t, GivesKey(k))
    {
      LastWithSnoc(t, a, GivesKey(k));
    }
  }

  lemma StampsNext(row: Row, t: seq<Arrival>, a: Arrival)
    requires FirstStamps(row, t)
    ensures FirstStamps(Write(row, a.event, a.At()), t + [a])
  {
    FirstWithSnoc(t, a, Begun);
    FirstWithSnoc(t, a, Final);
  }

  lemma ReflectsNext(row: Row, t: seq<Arrival>, a: Arrival)
    requires if t == [] then row == FRESH else Reflects(row, t)
    ensures Reflects(Write(row, a.event, a.At()), t + [a])
  {
    TextNext(row, t, a);
    ResultNext(row, t, a);
    MetaNext(row.meta, t, a);
    StampsNext(row, t, a);
  }

  /** An event is taken after `t` if nothing final has been, unless it is final too, and if it is not older than
      anything taken; one without a timestamp only as the first. */
  predicate Acceptable(t: seq<Arrival>, e: Event) {
    forall a | a in t ::
      (Final(a) ==> e.status in {Completed, Failed, Canceled}) && e.ts.Some? && a.At() <= e.ts.value
  }

  /** The events of a history that are taken. */
  function Taken(es: seq<Arrival>): seq<Arrival> {
    if es == [] then []
    else
      var t, a := Taken(es[..|es| - 1]), es[|es| - 1];
      if Acceptable(t, a.event) then t + [a] else t
  }

  /** Nothing taken is later than the last of them, and nothing but the last tells whether the job is over. */
  predicate InSequence(t: seq<Arrival>) {
    forall i, j | 0 <= i < j < |t| :: t[i].At() <= t[j].At() && (Final(t[i]) ==> Final(t[j]))
  }

  lemma SequenceNext(t: seq<Arrival>, a: Arrival)
    requires InSequence(t) && Acceptable(t, a.event)
    ensures InSequence(t + [a])
  {
    forall i | 0 <= i < |t| ensures t[i].At() <= a.At() && (Final(t[i]) ==> Final(a)) { assert t[i] in t; }
  }

  lemma AdmitsTaken(row: Row, t: seq<Arrival>, e: Event)
    requires t != [] && Reflects(row, t) && InSequence(t)
    ensures Admits(row, e) <==> Acceptable(t, e)
  {
    var last := t[|t| - 1];
    assert last in t;
    forall a | a in t ensures a.At() <= last.At() && (Final(a) ==> Final(last)) {
      var i :| 0 <= i < |t| && t[i] == a;
      assert i < |t| - 1 || a == last;
    }
  }

  lemma TakenNext(row: Row, t: seq<Arrival>, a: Arrival)
    requires t != [] && Reflects(row, t) && InSequence(t)
    ensures var (r, t') := (Apply(Some(row), a), if Acceptable(t, a.event) then t + [a] else t);
      r.Some? && Reflects(r.value, t') && InSequence(t')
  {
    AdmitsTaken(row, t, a.event);
    if Acceptable(t, a.event) {
      ReflectsNext(row, t, a);
      SequenceNext(t, a);
    }
  }

  /** The newest event wins, field by field, over any history: in each field the row says what the last event taken that
      says anything there says. */
  lemma {:induction false} NewestWins(es: seq<Arrival>)
    requires es != []
    ensures Fold(None, es).Some? && Reflects(Fold(None, es).value, Taken(es)) && InSequence(Taken(es))
  {
    var front, a := es[..|es| - 1], es[|es| - 1];
    var t := Taken(front);
    if front == [] {
      ReflectsNext(FRESH, t, a);
    } else {
      NewestWins(front);
      TakenNext(Fold(None, front).value, t, a);
    }
  }

  /** So it is in the table, whatever other jobs' events come between. */
  lemma TableIsNewest(es: seq<Arrival>, id: string)
    requires id != ""
    ensures var t, own := DeliverAll(map[], es), Only(es, id);
      (id in t <==> own != []) && (id in t ==> Reflects(t[id], Taken(own)))
  {
    RowsAreIndependent(map[], es, id);
    if Only(es, id) != [] { NewestWins(Only(es, id)); }
  }

  // ----- every sequence of events -----

  /** `later` is at least as far along as `row`. */
  predicate Monotone(row: Option<Row>, later: Option<Row>) {
    row.Some? ==>
      && later.Some?
      && (row.value.status.Terminal() ==> later.value.status.Terminal())
      && (row.value.lastEventAt.Some? ==>
            later.value.lastEventAt.Some? && later.value.lastEventAt.value >= row.value.lastEventAt.value)
  }

  /** Terminal is never left and the newest timestamp never moves back, whatever is delivered in whatever order. */
  lemma {:induction false} FoldIsMonotone(row: Option<Row>, es: seq<Arrival>)
    ensures Monotone(row, Fold(row, es))
  {
    if es != [] {
      FoldIsMonotone(row, es[..|es| - 1]);
    }
  }

  predicate Parseable(es: seq<Arrival>) { forall i | 0 <= i < |es| :: es[i].event.ts.Some? }

  predicate Increasing(es: seq<Arrival>)
    requires Parseable(es)
  {
    forall i, j | 0 <= i < j < |es| :: es[i].event.ts.value < es[j].event.ts.value
  }

  /** `got` delivers every event of `sent` in order, and any event again at any time after its first delivery. */
  ghost predicate Redelivers(sent: seq<Event>, got: seq<Arrival>) {
    if got == [] then sent == []
    else
      var front, last := got[..|got| - 1], got[|got| - 1].event;
      || (sent != [] && last == sent[|sent| - 1] && Redelivers(sent[..|sent| - 1], front))
      || (last in sent && Redelivers(sent, front))
  }

  function Events(es: seq<Arrival>): seq<Event> { seq(|es|, i requires 0 <= i < |es| => es[i].event) }

  lemma WriteTwice(row: Row, e: Event, at: int)
    ensures Write(Write(row, e, at), e, at) == Write(row, e, at)
  {
    assert row.meta + e.meta + e.meta == row.meta + e.meta;
  }

  /** Whatever an increasing history has already delivered changes nothing when it comes again. */
  lemma {:induction false} DeliveredIsInert(row: Option<Row>, es: seq<Arrival>, j: nat, now: int)
    requires Parseable(es) && Increasing(es) && j < |es|
    ensures Apply(Fold(row, es), Arrival(es[j].event, now)) == Fold(row, es)
  {
    var front, last := es[..|es| - 1], es[|es| - 1];
    var before := Fold(row, front);
    if j < |front| {
      DeliveredIsInert(row, front, j, now);
    } else if before.Some? {
      WriteTwice(before.value, last.event, last.At());
    } else {
      WriteTwice(FRESH, last.event, last.At());
    }
  }

  /** Duplicates of delivered events, inserted anywhere into an increasing history, leave the final row unchanged. */
  lemma {:induction false} RedeliveryChangesNothing(row: Option<Row>, sent: seq<Arrival>, got: seq<Arrival>)
    requires Parseable(sent) && Increasing(sent) && Redelivers(Events(sent), got)
    ensures Fold(row, got) == Fold(row, sent)
    decreases |got|
  {
    if got != [] {
      var front, last := got[..|got| - 1], got[|got| - 1];
      if sent != [] && last.event == sent[|sent| - 1].event
         && Redelivers(Events(sent)[..|sent| - 1], front) {
        assert Events(sent)[..|sent| - 1] == Events(sent[..|sent| - 1]);
        RedeliveryChangesNothing(row, sent[..|sent| - 1], front);
      } else {
        var j :| 0 <= j < |sent| && Events(sent)[j] == last.event;
        RedeliveryChangesNothing(row, sent, front);
        DeliveredIsInert(row, sent, j, last.now);
      }
    }
  }

  // ----- replaying a whole history, ties and disorder included -----

  /** What a run of events with one common timestamp writes, taken together. */
  datatype Patch = Patch(
    kind: string, user: string, origin: string, actor: string, status: Status,
    progress: Option<real>, exitStatus: Option<string>, meta: map<string, string>, starts: bool, ends: bool)

  function PatchOf(e: Event): Patch {
    Patch(e.kind, e.user, e.origin, e.actor, e.status, e.progress, e.exitStatus, e.meta,
          e.status.Started(), e.status.Terminal())
  }

  function Then(p: Patch, q: Patch): Patch {
    Patch(Or(q.kind, p.kind), Or(q.user, p.user), Or(q.origin, p.origin), Or(q.actor, p.actor), q.status,
          OrElse(q.progress, p.progress), OrElse(q.exitStatus, p.exitStatus), p.meta + q.meta,
          p.starts || q.starts, p.ends || q.ends)
  }

  function Stamp(row: Row, p: Patch, at: int): Row {
    Row(Or(p.kind, row.kind), Or(p.user, row.user), Or(p.origin, row.origin), Or(p.actor, row.actor), p.status,
        OrElse(p.progress, row.progress), OrElse(p.exitStatus, row.exitStatus), row.meta + p.meta,
        if p.starts then OrElse(row.startedAt, Some(at)) else row.startedAt,
        if p.ends then OrElse(row.endedAt, Some(at)) else row.endedAt,
        Some(at))
  }

  lemma StampThen(row: Row, p: Patch, q: Patch, at: int)
    ensures Stamp(Stamp(row, p, at), q, at) == Stamp(row, Then(p, q), at)
  {
    assert row.meta + p.meta + q.meta == row.meta + (p.meta + q.meta);
  }

  function WriteAll(row: Row, es: seq<Arrival>, at: int): Row {
    if es == [] then row else Write(WriteAll(row, es[..|es| - 1], at), es[|es| - 1].event, at)
  }

  lemma {:induction false} WriteAllStamps(row: Row, es: seq<Arrival>, at: int) returns (p: Patch)
    requires es != []
    ensures forall r: Row :: WriteAll(r, es, at) == Stamp(r, p, at)
  {
    var front, last := es[..|es| - 1], es[|es| - 1];
    p := PatchOf(last.event);
    if front != [] {
      var q := WriteAllStamps(row, front, at);
      forall r: Row ensures WriteAll(r, es, at) == Stamp(r, Then(q, p), at) {
        StampThen(r, q, p, at);
      }
      p := Then(q, p);
    }
  }

  lemma WriteAllTwice(row: Row, es: seq<Arrival>, at: int)
    ensures WriteAll(WriteAll(row, es, at), es, at) == WriteAll(row, es, at)
  {
    if es != [] {
      var p := WriteAllStamps(row, es, at);
      assert row.meta + p.meta + p.meta == row.meta + p.meta;
    }
  }

  /** The events at timestamp `at`, without the non-terminal ones once the row is terminal. */
  function Tied(es: seq<Arrival>, at: int, terminal: bool): seq<Arrival> {
    if es == [] then []
    else
      var last := es[|es| - 1];
      Tied(es[..|es| - 1], at, terminal)
      + if last.event.ts == Some(at) && (terminal ==> last.event.status.Terminal()) then [last] else []
  }

  predicate NewerThan(e: Event, row: Option<Row>)
    requires e.ts.Some?
  {
    row.None? || row.value.lastEventAt.None? || e.ts.value > row.value.lastEventAt.value
  }

  predicate IsTerminal(row: Option<Row>) { row.Some? && row.value.status.Terminal() }

  /** An event newer than the row was refused by the terminal guard; a refused terminal event is older than the row. */
  lemma {:induction false} WhyRefused(row: Option<Row>, es: seq<Arrival>, i: nat)
    requires Parseable(es) && i < |es|
    ensures var last := Fold(row, es);
      && (NewerThan(es[i].event, last) ==> IsTerminal(last) && !es[i].event.status.Terminal())
      && (es[i].event.status.Terminal() && !IsTerminal(last) ==>
            last.Some? && last.value.lastEventAt.Some? && es[i].event.ts.value < last.value.lastEventAt.value)
  {
    if i < |es| - 1 {
      WhyRefused(row, es[..|es| - 1], i);
    }
  }

  lemma {:induction false} TiedEmpty(es: seq<Arrival>, at: int, terminal: bool)
    requires forall i | 0 <= i < |es| :: es[i].event.ts == Some(at) ==> terminal && !es[i].event.status.Terminal()
    ensures Tied(es, at, terminal) == []
  {
    if es != [] {
      TiedEmpty(es[..|es| - 1], at, terminal);
    }
  }

  ghost predicate EndsWithTied(row: Option<Row>, es: seq<Arrival>, q: Row)
  {
    var r := Fold(row, es);
    r.Some? && r.value.lastEventAt.Some?
    && r.value == WriteAll(q, Tied(es, r.value.lastEventAt.value, r.value.status.Terminal()), r.value.lastEventAt.value)
  }

  lemma FoldSnoc(row: Option<Row>, front: seq<Arrival>, last: Arrival)
    ensures Fold(row, front + [last]) == Apply(Fold(row, front), last)
  {
    assert (front + [last])[..|front|] == front;
  }

  lemma TiedSnoc(front: seq<Arrival>, last: Arrival, at: int, terminal: bool)
    ensures var counts := last.event.ts == Some(at) && (terminal ==> last.event.status.Terminal());
      Tied(front + [last], at, terminal) == Tied(front, at, terminal) + if counts then [last] else []
  {
    assert (front + [last])[..|front|] == front;
  }

  lemma WriteAllSnoc(row: Row, front: seq<Arrival>, last: Arrival, at: int)
    ensures WriteAll(row, front + [last], at) == Write(WriteAll(row, front, at), last.event, at)
  {
    assert (front + [last])[..|front|] == front;
  }

  lemma RefusedKeepsTied(row: Option<Row>, front: seq<Arrival>, last: Arrival, q: Row)
    requires EndsWithTied(row, front, q) && last.event.ts.Some? && !Admits(Fold(row, front).value, last.event)
    ensures EndsWithTied(row, front + [last], q)
  {
    var r := Fold(row, front).value;
    FoldSnoc(row, front, last);
    TiedSnoc(front, last, r.lastEventAt.value, r.status.Terminal());
    assert Tied(front, r.lastEventAt.value, r.status.Terminal()) + []
        == Tied(front, r.lastEventAt.value, r.status.Terminal());
  }

  lemma TieKeepsTied(row: Option<Row>, front: seq<Arrival>, last: Arrival, q: Row)
    requires EndsWithTied(row, front, q) && Admits(Fold(row, front).value, last.event)
    requires Fold(row, front).value.lastEventAt == last.event.ts
    requires Fold(row, front).value.status.Terminal() == last.event.status.Terminal()
    ensures EndsWithTied(row, front + [last], q)
  {
    var r := Fold(row, front).value;
    FoldSnoc(row, front, last);
    TiedSnoc(front, last, r.lastEventAt.value, r.status.Terminal());
    WriteAllSnoc(q, Tied(front, r.lastEventAt.value, r.status.Terminal()), last, r.lastEventAt.value);
  }

  lemma NewestStandsAlone(row: Option<Row>, front: seq<Arrival>, last: Arrival) returns (q: Row)
    requires Parseable(front) && last.event.ts.Some?
    requires var before := Fold(row, front);
      before.None? || (Admits(before.value, last.event)
        && !(before.value.lastEventAt == last.event.ts
             && before.value.status.Terminal() == last.event.status.Terminal()))
    ensures EndsWithTied(row, front + [last], q)
  {
    var before, at, terminal := Fold(row, front), last.event.ts.value, last.event.status.Terminal();
    q := if before.Some? then before.value else FRESH;
    FoldSnoc(row, front, last);
    TiedSnoc(front, last, at, terminal);
    forall i | 0 <= i < |front|
      ensures front[i].event.ts == Some(at) ==> terminal && !front[i].event.status.Terminal()
    {
      WhyRefused(row, front, i);
    }
    TiedEmpty(front, at, terminal);
    WriteAllSnoc(q, [], last, at);
    assert [] + [last] == [last];
  }

  /** The row after a history is some row with exactly the tied newest events written onto it. */
  lemma {:induction false} FoldEndsWithTied(row: Option<Row>, es: seq<Arrival>) returns (q: Row)
    requires Parseable(es)
    ensures Fold(row, es).Some? && Fold(row, es).value.lastEventAt.Some? ==> EndsWithTied(row, es, q)
  {
    q := FRESH;
    if es == [] {
      if row.Some? { q := row.value; }
    } else {
      var front, last := es[..|es| - 1], es[|es| - 1];
      var before := Fold(row, front);
      assert es == front + [last] && es[|es| - 1].event.ts.Some?;
      if before.None? {
        q := NewestStandsAlone(row, front, last);
      } else if !Admits(before.value, last.event) {
        q := FoldEndsWithTied(row, front);
        if before.value.lastEventAt.Some? { RefusedKeepsTied(row, front, last, q); }
      } else if before.value.lastEventAt == last.event.ts
                && before.value.status.Terminal() == last.event.status.Terminal() {
        q := FoldEndsWithTied(row, front);
        TieKeepsTied(row, front, last, q);
      } else {
        q := NewestStandsAlone(row, front, last);
      }
    }
  }

  /** Replayed onto its own final row, a history writes its tied newest events again and nothing else. */
  lemma {:induction false} ReplayWritesTied(row: Row, es: seq<Arrival>, at: int)
    requires Parseable(es) && row.lastEventAt == Some(at)
    requires forall i | 0 <= i < |es| ::
      && (es[i].event.ts.value > at ==> row.status.Terminal() && !es[i].event.status.Terminal())
      && (es[i].event.status.Terminal() && !row.status.Terminal() ==> es[i].event.ts.value < at)
    ensures var r := WriteAll(row, Tied(es, at, row.status.Terminal()), at);
      Fold(Some(row), es) == Some(r) && r.lastEventAt == Some(at) && r.status.Terminal() == row.status.Terminal()
  {
    if es != [] {
      var front, last := es[..|es| - 1], es[|es| - 1];
      ReplayWritesTied(row, front, at);
      var tied := Tied(front, at, row.status.Terminal());
      if last.event.ts == Some(at) && (row.status.Terminal() ==> last.event.status.Terminal()) {
        assert (tied + [last])[..|tied|] == tied;
      } else {
        assert tied + [] == tied;
      }
    }
  }

  /** Replaying any parseable history in full, in the order it came, is a no-op. */
  lemma ReplayIsNoOp(row: Option<Row>, es: seq<Arrival>)
    requires Parseable(es)
    ensures Fold(Fold(row, es), es) == Fold(row, es)
  {
    var r := Fold(row, es);
    if es != [] && r.Some? && r.value.lastEventAt.Some? {
      var at := r.value.lastEventAt.value;
      forall i | 0 <= i < |es| ensures
        && (es[i].event.ts.value > at ==> r.value.status.Terminal() && !es[i].event.status.Terminal())
        && (es[i].event.status.Terminal() && !r.value.status.Terminal() ==> es[i].event.ts.value < at)
      {
        WhyRefused(row, es, i);
      }
      var q := FoldEndsWithTied(row, es);
      ReplayWritesTied(r.value, es, at);
      WriteAllTwice(q, Tied(es, at, r.value.status.Terminal()), at);
    } else if es != [] {
      UnstampedRefusesAll(row, es, es);
    }
  }

  /** A row that never took a timestamp is terminal and refused everything; it does so again. */
  lemma {:induction false} UnstampedRefusesAll(row: Option<Row>, es: seq<Arrival>, again: seq<Arrival>)
    requires Parseable(es) && es != [] && again <= es
    requires var r := Fold(row, es); r.None? || r.value.lastEventAt.None?
    ensures Fold(Fold(row, es), again) == Fold(row, es)
    decreases |again|
  {
    if again != [] {
      UnstampedRefusesAll(row, es, again[..|again| - 1]);
      WhyRefused(row, es, |again| - 1);
    }
  }
}
