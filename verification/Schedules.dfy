/** Agent schedules shared by any number of pods: guarded row updates, and what every interleaving of them keeps. */
module Schedules {
  import opened Cron
  import opened Options

  type Id = string

  datatype Status = Scheduled | Paused | Completed | Canceled

  datatype Kind = Recurring(spec: CronSpec) | Once

  /** Instants are microseconds since midnight of 0001-01-01, UTC. */
  datatype Row = Row(session: Id, kind: Kind, status: Status, nextRun: Option<nat>, lastRun: Option<nat>)

  // ----- the updates -----

  function NextRun(kind: Kind, now: nat): Option<nat> {
    if kind.Once? then None
    else
      var next := NextFire(kind.spec, now / MICROS_PER_MINUTE);
      if next.None? then None else Some(next.value * MICROS_PER_MINUTE)
  }

  predicate Due(row: Row, now: nat) { row.status.Scheduled? && row.nextRun.Some? && row.nextRun.value <= now }

  function Advance(row: Row, now: nat, recurring: bool, next: Option<nat>): Row {
    if recurring && next.Some? then row.(nextRun := next, lastRun := Some(now))
    else row.(status := Completed, nextRun := None, lastRun := Some(now))
  }

  function Claimed(row: Row, now: nat): Row { Advance(row, now, row.kind.Recurring?, NextRun(row.kind, now)) }

  function PausedRow(row: Row): Row { if row.status.Scheduled? then row.(status := Paused, nextRun := None) else row }

  function Rearmed(row: Row, now: nat): Row {
    if row.kind.Once? then row.(status := Scheduled, nextRun := Some(now))
    else if NextRun(row.kind, now).None? then row.(status := Completed, nextRun := None)
    else row.(status := Scheduled, nextRun := NextRun(row.kind, now))
  }

  function CanceledRow(row: Row): Row { row.(status := Canceled, nextRun := None) }

  // ----- interleavings -----

  /** A row with the instants its claims have consumed, oldest first, and the instant it was asked for at. */
  datatype Tracked = Tracked(row: Row, created: nat, consumed: seq<nat>)

  /** `cancelling` holds the rows a cancel has read as scheduled: its write may follow at any later time. */
  datatype State = State(clock: nat, tracked: map<Id, Tracked>, cancelling: set<Id>)

  datatype Step =
    | Wait
    | Create(id: Id, session: Id, kind: Kind, at: nat, now: nat)
    | Claim(id: Id, now: nat)
    | Pause(id: Id)
    | Rearm(session: Id)
    | CancelRead(id: Id)
    | CancelWrite(id: Id)

  ghost predicate Init(s: State) { s.tracked == map[] && s.cancelling == {} }

  function ClaimEntry(e: Tracked, now: nat): Tracked {
    if Due(e.row, now) then e.(row := Claimed(e.row, now), consumed := e.consumed + [e.row.nextRun.value]) else e
  }

  function RearmEntry(e: Tracked, session: Id, now: nat): Tracked {
    if e.row.session == session && e.row.status.Paused? then e.(row := Rearmed(e.row, now)) else e
  }

  /** A poll may act on any earlier reading of the common clock; re-arming is one transaction at the current one. */
  ghost predicate Next(s: State, step: Step, t: State) {
    match step
    case Wait => t.clock >= s.clock && t == s.(clock := t.clock)
    case Create(id, session, kind, at, now) =>
      && id !in s.tracked && now <= s.clock
      && (kind.Recurring? ==> WellFormed(kind.spec) && NextRun(kind, now) == Some(at))
      && t == s.(tracked := s.tracked[id := Tracked(Row(session, kind, Scheduled, Some(at), None), now, [])])
    case Claim(id, now) =>
      && id in s.tracked && now <= s.clock
      && t == s.(tracked := s.tracked[id := ClaimEntry(s.tracked[id], now)])
    case Pause(id) =>
      && id in s.tracked
      && t == s.(tracked := s.tracked[id := s.tracked[id].(row := PausedRow(s.tracked[id].row))])
    case Rearm(session) =>
      t == s.(tracked := map id | id in s.tracked :: RearmEntry(s.tracked[id], session, s.clock))
    case CancelRead(id) =>
      && id in s.tracked
      && t == (if s.tracked[id].row.status.Scheduled? then s.(cancelling := s.cancelling + {id}) else s)
    case CancelWrite(id) =>
      && id in s.tracked && id in s.cancelling
      && t == s.(tracked := s.tracked[id := s.tracked[id].(row := CanceledRow(s.tracked[id].row))])
  }

  ghost predicate Run(states: seq<State>, steps: seq<Step>) {
    && |states| == |steps| + 1 && Init(states[0])
    && forall i | 0 <= i < |steps| :: Next(states[i], steps[i], states[i + 1])
  }

  // ----- what every run keeps -----

  predicate Fires(spec: CronSpec, t: nat) { t % MICROS_PER_MINUTE == 0 && Matches(spec, t / MICROS_PER_MINUTE) }

  predicate Ascending(s: seq<nat>) { forall i, j | 0 <= i < j < |s| :: s[i] < s[j] }

  predicate OnceOk(e: Tracked) {
    |e.consumed| == 0 || (|e.consumed| == 1 && (e.row.status.Completed? || e.row.status.Canceled?))
  }

  predicate RecurringOk(e: Tracked, spec: CronSpec) {
    && Ascending(e.consumed)
    && (forall i | 0 <= i < |e.consumed| :: e.created < e.consumed[i] && Fires(spec, e.consumed[i]))
    && (e.row.nextRun.Some? ==> e.created < e.row.nextRun.value && Fires(spec, e.row.nextRun.value))
    && (e.row.nextRun.Some? ==> forall i | 0 <= i < |e.consumed| :: e.consumed[i] < e.row.nextRun.value)
  }

  predicate EntryOk(e: Tracked, clock: nat) {
    && (e.row.nextRun.Some? <==> e.row.status.Scheduled?)
    && e.created <= clock
    && (forall i | 0 <= i < |e.consumed| :: e.consumed[i] <= clock)
    && (if e.row.kind.Once? then OnceOk(e) else RecurringOk(e, e.row.kind.spec))
  }

  ghost predicate Inv(s: State) { forall id | id in s.tracked :: EntryOk(s.tracked[id], s.clock) }

  lemma NextRunIsLater(kind: Kind, now: nat)
    requires kind.Recurring? && NextRun(kind, now).Some?
    ensures NextRun(kind, now).value > now && Fires(kind.spec, NextRun(kind, now).value)
  {
    var m := now / MICROS_PER_MINUTE;
    NextMatchIsLeast(kind.spec, m + 1, m + MAX_LOOKAHEAD);
    var next := NextFire(kind.spec, m).value;
    assert next * MICROS_PER_MINUTE / MICROS_PER_MINUTE == next && next * MICROS_PER_MINUTE % MICROS_PER_MINUTE == 0;
  }

  predicate FirstFire(spec: CronSpec, now: nat, t: nat) {
    now < t && Fires(spec, t) && forall u: nat | now < u < t :: !Fires(spec, u)
  }

  /** No fire within 1461 days. */
  predicate NoFire(spec: CronSpec, now: nat) {
    forall m: nat | now / MICROS_PER_MINUTE < m <= now / MICROS_PER_MINUTE + 1461 * 1440 :: !Matches(spec, m)
  }

  /** The next run is the first firing minute after `now`, if the lookahead meets one; a one-shot has none. */
  lemma NextRunIsFirst(kind: Kind, now: nat)
    ensures kind.Once? ==> NextRun(kind, now).None?
    ensures kind.Recurring? ==>
      match NextRun(kind, now) case Some(t) => FirstFire(kind.spec, now, t) case None => NoFire(kind.spec, now)
  {
    if kind.Recurring? {
      var m := now / MICROS_PER_MINUTE;
      NextMatchIsLeast(kind.spec, m + 1, m + MAX_LOOKAHEAD);
      var next := NextRun(kind, now);
      if next.Some? {
        NextRunIsLater(kind, now);
        forall u: nat | now < u < next.value ensures !Fires(kind.spec, u) {
          if u % MICROS_PER_MINUTE == 0 { WholeMinute(u, now, next.value / MICROS_PER_MINUTE); }
        }
      }
    }
  }

  lemma WholeMinute(u: nat, now: nat, m: nat)
    requires u % MICROS_PER_MINUTE == 0 && now < u < m * MICROS_PER_MINUTE
    ensures now / MICROS_PER_MINUTE < u / MICROS_PER_MINUTE < m
  {}

  lemma ClaimKeeps(e: Tracked, now: nat, clock: nat)
    requires EntryOk(e, clock) && now <= clock
    ensures EntryOk(ClaimEntry(e, now), clock)
  {
    if e.row.kind.Recurring? && NextRun(e.row.kind, now).Some? { NextRunIsLater(e.row.kind, now); }
  }

  lemma RearmKeeps(e: Tracked, session: Id, clock: nat)
    requires EntryOk(e, clock)
    ensures EntryOk(RearmEntry(e, session, clock), clock)
  {
    if e.row.kind.Recurring? && NextRun(e.row.kind, clock).Some? { NextRunIsLater(e.row.kind, clock); }
  }

  lemma CreateKeeps(session: Id, kind: Kind, at: nat, now: nat, clock: nat)
    requires now <= clock && (kind.Recurring? ==> NextRun(kind, now) == Some(at))
    ensures EntryOk(Tracked(Row(session, kind, Scheduled, Some(at), None), now, []), clock)
  {
    if kind.Recurring? { NextRunIsLater(kind, now); }
  }

  lemma NextKeepsInv(s: State, step: Step, t: State)
    requires Inv(s) && Next(s, step, t)
    ensures Inv(t)
  {
    match step
    case Create(_, session, kind, at, now) => CreateKeeps(session, kind, at, now, s.clock);
    case Claim(id, now) => ClaimKeeps(s.tracked[id], now, s.clock);
    case Rearm(session) =>
      forall id | id in s.tracked ensures EntryOk(t.tracked[id], t.clock) {
        RearmKeeps(s.tracked[id], session, s.clock);
      }
    case _ =>
  }

  lemma {:induction false} RunKeepsInv(states: seq<State>, steps: seq<Step>, i: nat)
    requires Run(states, steps) && i < |states|
    ensures Inv(states[i])
  {
    if i > 0 {
      RunKeepsInv(states, steps, i - 1);
      NextKeepsInv(states[i - 1], steps[i - 1], states[i]);
    }
  }

  /** A one-shot schedule is claimed at most once, by however many pods. */
  lemma OneShotOnce(states: seq<State>, steps: seq<Step>, i: nat, id: Id)
    requires Run(states, steps) && i < |states| && id in states[i].tracked && states[i].tracked[id].row.kind.Once?
    ensures |states[i].tracked[id].consumed| <= 1
  {
    RunKeepsInv(states, steps, i);
    assert EntryOk(states[i].tracked[id], states[i].clock);
  }

  // ----- histories only grow -----

  ghost predicate Follows(e: Tracked, f: Tracked) {
    && f.created == e.created && f.row.kind == e.row.kind && e.consumed <= f.consumed
    && (e.row.status.Canceled? ==> f == e)
  }

  lemma StepFollows(s: State, step: Step, t: State, id: Id)
    requires Next(s, step, t) && Inv(s) && id in s.tracked
    ensures id in t.tracked && Follows(s.tracked[id], t.tracked[id])
  {
    assert EntryOk(s.tracked[id], s.clock);
  }

  lemma {:induction false} HistoryGrows(states: seq<State>, steps: seq<Step>, i: nat, j: nat, id: Id)
    requires Run(states, steps) && i <= j < |states| && id in states[i].tracked
    ensures id in states[j].tracked && Follows(states[i].tracked[id], states[j].tracked[id])
    decreases j
  {
    if i < j {
      HistoryGrows(states, steps, i, j - 1, id);
      RunKeepsInv(states, steps, j - 1);
      StepFollows(states[j - 1], steps[j - 1], states[j], id);
    }
  }

  /** Once canceled, a schedule is neither claimed nor re-armed again. */
  lemma CanceledForever(states: seq<State>, steps: seq<Step>, i: nat, j: nat, id: Id)
    requires Run(states, steps) && i <= j < |states| && id in states[i].tracked
    requires states[i].tracked[id].row.status.Canceled?
    ensures id in states[j].tracked && states[j].tracked[id] == states[i].tracked[id]
  {
    HistoryGrows(states, steps, i, j, id);
  }

  /** Successive claims of a recurring schedule consume strictly later matching minutes, all after its creation
      and none in the future, also across pauses and re-arms. */
  lemma ClaimsAscend(states: seq<State>, steps: seq<Step>, i: nat, id: Id)
    requires Run(states, steps) && i < |states| && id in states[i].tracked && states[i].tracked[id].row.kind.Recurring?
    ensures var e := states[i].tracked[id];
      && Ascending(e.consumed)
      && forall k | 0 <= k < |e.consumed| ::
        e.created < e.consumed[k] <= states[i].clock && Fires(e.row.kind.spec, e.consumed[k])
  {
    RunKeepsInv(states, steps, i);
    assert EntryOk(states[i].tracked[id], states[i].clock);
  }

  // ----- counting -----

  function FiresBetween(spec: CronSpec, a: nat, b: nat): set<nat> { set t: nat | a < t <= b && Fires(spec, t) }

  function Members(s: seq<nat>): set<nat> { set x | x in s }

  lemma {:induction false} AscendingCounts(s: seq<nat>)
    requires Ascending(s)
    ensures |Members(s)| == |s|
  {
    if s != [] {
      var n := |s| - 1;
      AscendingCounts(s[..n]);
      assert Members(s) == Members(s[..n]) + {s[n]};
      assert s[n] !in s[..n];
    }
  }

  lemma {:induction false} SubsetSize<T>(a: set<T>, b: set<T>)
    requires a <= b
    ensures |a| <= |b|
  {
    if a != {} {
      var x :| x in a;
      SubsetSize(a - {x}, b - {x});
    }
  }

  /** Claims never outnumber the minutes the expression has matched since the schedule was created. */
  lemma ClaimsBounded(states: seq<State>, steps: seq<Step>, i: nat, id: Id)
    requires Run(states, steps) && i < |states| && id in states[i].tracked && states[i].tracked[id].row.kind.Recurring?
    ensures var e := states[i].tracked[id];
      |e.consumed| <= |FiresBetween(e.row.kind.spec, e.created, states[i].clock)|
  {
    ClaimsAscend(states, steps, i, id);
    var e := states[i].tracked[id];
    AscendingCounts(e.consumed);
    SubsetSize(Members(e.consumed), FiresBetween(e.row.kind.spec, e.created, states[i].clock));
  }
}
