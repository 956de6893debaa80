/** The schedule table and the poller that fires from it, one process at a time. */
module ScheduleTable {
  import opened Cron
  import opened Schedules
  import opened Options

  type Rows = map<Id, Row>

  function RearmRow(row: Row, session: Id, now: nat): Row {
    if row.session == session && row.status.Paused? then Rearmed(row, now) else row
  }

  function RearmAll(rows: Rows, session: Id, now: nat): Rows { map id | id in rows :: RearmRow(rows[id], session, now) }

  /** All paused rows of the session but those in `todo` have been re-armed. */
  ghost predicate Rearming(before: Rows, rows: Rows, session: Id, now: nat, todo: set<Id>, rearmed: set<Id>) {
    && rows.Keys == before.Keys && todo <= before.Keys
    && (forall id | id in todo :: before[id].session == session && before[id].status.Paused? && rows[id] == before[id])
    && (forall id | id in before && id !in todo :: rows[id] == RearmRow(before[id], session, now))
    && (forall id :: id in rearmed <==>
          id in before && id !in todo && before[id].status.Paused? && rows[id].status.Scheduled?)
  }

  lemma RearmStep(before: Rows, rows: Rows, session: Id, now: nat, todo: set<Id>, rearmed: set<Id>, id: Id)
    requires Rearming(before, rows, session, now, todo, rearmed) && id in todo
    ensures var row := Rearmed(rows[id], now);
      Rearming(before, rows[id := row], session, now, todo - {id},
               if row.status.Scheduled? then rearmed + {id} else rearmed)
  {}

  /** The row after a claim: scheduled for its next run, or completed without one. */
  predicate GoesOn(after: Row, before: Row, now: nat, next: Option<nat>) {
    && after.session == before.session && after.kind == before.kind && after.lastRun == Some(now)
    && after.nextRun == next && after.status == (if next.Some? then Scheduled else Completed)
  }

  /** A paused row armed again: a one-shot for now, a recurring one for its first fire after now, if it has any. */
  ghost predicate BackOn(after: Row, before: Row, now: nat) {
    && after.session == before.session && after.kind == before.kind && after.lastRun == before.lastRun
    && (before.kind.Once? ==> after.status == Scheduled && after.nextRun == Some(now))
    && (before.kind.Recurring? ==> ForNextFire(after, before.kind.spec, now))
  }

  /** Scheduled for the first fire after `now`, or completed when the lookahead meets none. */
  ghost predicate ForNextFire(row: Row, spec: CronSpec, now: nat) {
    match row.nextRun
    case Some(t) => row.status == Scheduled && FirstFire(spec, now, t)
    case None => row.status == Completed && NoFire(spec, now)
  }

  lemma RearmedIsBackOn(row: Row, now: nat)
    ensures BackOn(Rearmed(row, now), row, now)
  {
    NextRunIsFirst(row.kind, now);
  }

  /** Every paused row of the session is armed again, and no other row touched. */
  ghost predicate AllBackOn(before: Rows, after: Rows, session: Id, now: nat) {
    && after.Keys == before.Keys
    && forall id | id in before ::
      if before[id].session == session && before[id].status == Paused then BackOn(after[id], before[id], now)
      else after[id] == before[id]
  }

  lemma RearmedAllBackOn(before: Rows, session: Id, now: nat)
    ensures AllBackOn(before, RearmAll(before, session, now), session, now)
  {
    forall id | id in before ensures BackOn(Rearmed(before[id], now), before[id], now) {
      RearmedIsBackOn(before[id], now);
    }
  }

  class Table {
    var rows: Rows

    constructor ()
      ensures rows == map[]
    {
      rows := map[];
    }

    method Create(id: Id, session: Id, kind: Kind, at: nat)
      requires id !in rows
      modifies this
      ensures rows == old(rows)[id := Row(session, kind, Scheduled, Some(at), None)]
    {
      rows := rows[id := Row(session, kind, Scheduled, Some(at), None)];
    }

    /** One guarded update: at most one of any number of callers gets the row back. */
    method ClaimDue(id: Id, now: nat, recurring: bool, next: Option<nat>) returns (claimed: Option<Row>)
      modifies this
      ensures claimed.Some? <==>
        id in old(rows) && old(rows)[id].status == Scheduled
        && old(rows)[id].nextRun.Some? && old(rows)[id].nextRun.value <= now
      ensures claimed.Some? ==> claimed.value == Advance(old(rows)[id], now, recurring, next)
      ensures claimed.Some? ==> GoesOn(claimed.value, old(rows)[id], now, if recurring then next else None)
      ensures rows == if claimed.Some? then old(rows)[id := claimed.value] else old(rows)
    {
      var status := if recurring && next.Some? then Scheduled else Completed;
      var newNext := if status.Scheduled? then next else None;
      if id !in rows || !rows[id].status.Scheduled? || rows[id].nextRun.None? || rows[id].nextRun.value > now {
        return None;
      }
      rows := rows[id := rows[id].(status := status, lastRun := Some(now), nextRun := newNext)];
      return Some(rows[id]);
    }

    method PauseForReauth(id: Id) returns (paused: Option<Row>)
      modifies this
      ensures paused.Some? <==> id in old(rows) && old(rows)[id].status.Scheduled?
      ensures rows == if id in old(rows) then old(rows)[id := PausedRow(old(rows)[id])] else old(rows)
      ensures paused.Some? ==> rows == old(rows)[id := old(rows)[id].(status := Paused, nextRun := None)]
      ensures paused.None? ==> rows == old(rows)
    {
      if id !in rows || !rows[id].status.Scheduled? { return None; }
      rows := rows[id := rows[id].(status := Paused, nextRun := None)];
      return Some(rows[id]);
    }

    /** Re-arms every paused row of a session in one transaction and reports those scheduled again. */
    method RearmPaused(session: Id, now: nat) returns (rearmed: set<Id>)
      modifies this
      ensures rows == RearmAll(old(rows), session, now)
      ensures AllBackOn(old(rows), rows, session, now)
      ensures forall id ::
        id in rearmed <==> id in old(rows) && old(rows)[id].status.Paused? && rows[id].status.Scheduled?
    {
      ghost var before := rows;
      RearmedAllBackOn(before, session, now);
      var todo := set id | id in rows && rows[id].session == session && rows[id].status.Paused?;
      rearmed := {};
      while todo != {}
        invariant Rearming(before, rows, session, now, todo, rearmed)
        decreases |todo|
      {
        var id :| id in todo;
        var row := RearmedRow(rows[id], now);
        RearmStep(before, rows, session, now, todo, rearmed, id);
        todo := todo - {id};
        rows := rows[id := row];
        if row.status.Scheduled? { rearmed := rearmed + {id}; }
      }
    }

    static method RearmedRow(row: Row, now: nat) returns (r: Row)
      ensures r == Rearmed(row, now)
    {
      if row.kind.Recurring? {
        var next := CronNext(row.kind.spec, now);
        if next.None? { return row.(status := Completed, nextRun := None); }
        r := row.(nextRun := Some(next.value * MICROS_PER_MINUTE));
      } else {
        r := row.(nextRun := Some(now));
      }
      r := r.(status := Scheduled);
    }

    /** The two halves of a cancel: the row is read first and written later. */
    method CancelRead(id: Id) returns (pending: bool)
      ensures pending <==> id in rows && rows[id].status.Scheduled?
    {
      pending := id in rows && rows[id].status.Scheduled?;
    }

    method CancelWrite(id: Id)
      requires id in rows
      modifies this
      ensures rows == old(rows)[id := CanceledRow(old(rows)[id])]
      ensures rows[id] == old(rows)[id].(status := Canceled, nextRun := None)
    {
      rows := rows[id := rows[id].(status := Canceled, nextRun := None)];
    }
  }

  /** What one attempt to fire came to. */
  datatype Outcome = Deferred | PausedForReauth | LostRace | SessionGone | TurnRaced | Spawned

  class AgentScheduler {
    const table: Table
    var tokens: set<Id>
    var busy: set<Id>

    constructor (table: Table)
      ensures this.table == table && tokens == {} && busy == {}
    {
      this.table := table;
      tokens, busy := {}, {};
    }

    /** Fires a row as it was listed, whatever has become of it since: `expired` holds the schedules whose captured
        token has run out, `sessions` the sessions that still exist and `racing` those on which a turn starts between
        the claim and the spawn. */
    method Fire(id: Id, row: Row, now: nat, expired: set<Id>, sessions: set<Id>, racing: set<Id>) returns (o: Outcome)
      requires id in table.rows ==> row.kind == table.rows[id].kind
      modifies this, table
      ensures ShotOk(Shot(id, row, old(View()), View(), o), now, expired, sessions, racing)
    {
      var recurring := row.kind.Recurring?;
      if row.session in busy { return Deferred; }
      if id !in tokens || id in expired {
        var paused := table.PauseForReauth(id);
        tokens := tokens - {id};
        return PausedForReauth;
      }
      var next: Option<nat> := None;
      if recurring {
        var minute := CronNext(row.kind.spec, now);
        if minute.Some? { next := Some(minute.value * MICROS_PER_MINUTE); }
      }
      var claimed := table.ClaimDue(id, now, recurring, next);
      if claimed.None? { return LostRace; }
      if row.session !in sessions {
        tokens := tokens - {id};
        var pending := table.CancelRead(id);
        if pending { table.CancelWrite(id); }
        return SessionGone;
      }
      if row.session in racing {
        if !claimed.value.status.Scheduled? { tokens := tokens - {id}; }
        return TurnRaced;
      }
      busy := busy + {row.session};
      if !recurring || !claimed.value.status.Scheduled? { tokens := tokens - {id}; }
      return Spawned;
    }

    function View(): Poll
      reads this, table
    {
      Poll(table.rows, busy, tokens)
    }

    method Become(p: Poll)
      modifies this, table
      ensures View() == p
    {
      table.rows, busy, tokens := p.rows, p.busy, p.tokens;
    }

    /** A row is fired as it was listed, whatever has become of it since. */
    method Shoot(id: Id, ghost listed: Rows, row: Row, now: nat, expired: set<Id>, sessions: set<Id>, racing: set<Id>)
      returns (shot: Shot)
      requires id in listed && listed[id] == row && SameKinds(listed, table.rows)
      modifies this, table
      ensures ShotOk(shot, now, expired, sessions, racing) && SameKinds(listed, table.rows)
      ensures shot == Shot(id, row, old(View()), View(), shot.outcome)
    {
      var before := View();
      var o := Fire(id, row, now, expired, sessions, racing);
      KindsKept(listed, before.rows, id, now, o);
      shot := Shot(id, row, before, View(), o);
    }

    /** One shot of a poll that began at `start`, once others have had their way. */
    method NextShot(id: Id, listed: Rows, ghost start: Poll, ghost todo: set<Id>, ghost spawned: set<Id>,
                    shots: seq<Shot>, now: nat, expired: set<Id>, sessions: set<Id>, racing: set<Id>,
                    others: (nat, Poll) -> Poll, ghost stop: nat -> bool)
      returns (shot: Shot)
      requires Polling(start, View(), todo, spawned, shots, now, expired, sessions, racing, others, stop)
      requires id in todo && id in listed && listed == start.rows && !stop(|shots|)
      requires SameKinds(listed, table.rows) && KeepsKinds(listed, others)
      modifies this, table
      ensures shot.id == id && SameKinds(listed, table.rows)
      ensures Polling(start, View(), todo - {id}, With(spawned, shot), shots + [shot], now, expired, sessions, racing,
                      others, stop)
    {
      ghost var view := View();
      Become(others(|shots|, View()));
      shot := Shoot(id, listed, listed[id], now, expired, sessions, racing);
      PollingStep(start, view, todo, spawned, shots, now, expired, sessions, racing, others, stop, shot);
    }

    /** One poll over the rows due at `now`. Before its nth shot `others(n, _)` is what other pods, users and requests
        have made of the table and of this process, and `stop(n)` says whether the process is being stopped. */
    method Tick(now: nat, expired: set<Id>, sessions: set<Id>, racing: set<Id>, others: (nat, Poll) -> Poll,
                stop: nat -> bool)
      returns (spawned: set<Id>, stopped: bool, shots: seq<Shot>)
      requires KeepsKinds(table.rows, others)
      modifies this, table
      ensures Volley(shots, old(table.rows), now, spawned)
      ensures Taken(old(View()), Latest(old(View()), shots), shots, now, expired, sessions, racing, others, stop)
      ensures View() == if stopped then others(|shots|, Latest(old(View()), shots)) else Latest(old(View()), shots)
      ensures stopped ==> stop(|shots|)
      ensures stopped <==> exists id | id in old(table.rows) && Due(old(table.rows)[id], now) :: !Tried(shots, id)
      ensures !stopped && Alone(others) ==>
        Polled(old(View()), View(), {}, spawned, now, expired)
    {
      ghost var start := View();
      var listed := table.rows;
      var todo := set id | id in listed && Due(listed[id], now);
      spawned, stopped, shots := {}, false, [];
      while todo != {}
        invariant SameKinds(listed, table.rows)
        invariant Polling(start, View(), todo, spawned, shots, now, expired, sessions, racing, others, stop)
        decreases |todo|
      {
        if stop(|shots|) {
          Become(others(|shots|, View()));
          stopped := true;
          return;
        }
        var id :| id in todo;
        var shot := NextShot(id, listed, start, todo, spawned, shots, now, expired, sessions, racing, others, stop);
        todo, spawned, shots := todo - {id}, With(spawned, shot), shots + [shot];
      }
    }
  }

  /** One attempt to fire: the row as listed, and what the poller saw just before and left just after. */
  datatype Shot = Shot(id: Id, row: Row, before: Poll, after: Poll, outcome: Outcome)

  /** The captured token is there and has not run out. */
  predicate Authorized(p: Poll, id: Id, expired: set<Id>) { id in p.tokens && id !in expired }

  predicate Claimable(p: Poll, id: Id, now: nat) { id in p.rows && Due(p.rows[id], now) }

  /** A turn is spawned exactly when its session is free, its token live, the claim won in that very update, the
      session still there and no other turn quicker; each guard that fails first decides the outcome otherwise. */
  predicate Decided(s: Shot, now: nat, expired: set<Id>, sessions: set<Id>, racing: set<Id>) {
    var free, live := s.row.session !in s.before.busy, Authorized(s.before, s.id, expired);
    var won := Claimable(s.before, s.id, now);
    && (s.outcome.Deferred? <==> !free)
    && (s.outcome.PausedForReauth? <==> free && !live)
    && (s.outcome.LostRace? <==> free && live && !won)
    && (s.outcome.SessionGone? <==> free && live && won && s.row.session !in sessions)
    && (s.outcome.TurnRaced? <==> free && live && won && s.row.session in sessions * racing)
    && (s.outcome.Spawned? <==> free && live && won && s.row.session in sessions - racing)
  }

  /** The outcome is the one the guards decide, and the table, the busy sessions and the tokens follow it. */
  predicate ShotOk(s: Shot, now: nat, expired: set<Id>, sessions: set<Id>, racing: set<Id>) {
    && Decided(s, now, expired, sessions, racing)
    && s.after.rows == RowsAfter(s.before.rows, s.id, now, s.outcome)
    && s.after.busy == (if s.outcome.Spawned? then s.before.busy + {s.row.session} else s.before.busy)
    && s.after.tokens == (if KeepsToken(s) then s.before.tokens else s.before.tokens - {s.id})
  }

  /** A token is kept while nothing was claimed for lack of it, and after a claim while the schedule goes on. */
  predicate KeepsToken(s: Shot) {
    match s.outcome
    case Deferred | LostRace => true
    case PausedForReauth | SessionGone => false
    case TurnRaced | Spawned => s.id in s.after.rows && s.after.rows[s.id].status.Scheduled?
  }

  /** What a shot makes of its row. A turn, even one that lost its session to a quicker one, uses the run up: a one-shot
      is completed, a recurring row waits for its first fire after now. Nothing further is planned for a missing session
      and a row with a dead token; otherwise nothing changes, and no other row ever does. */
  lemma ShotLeaves(s: Shot, now: nat, expired: set<Id>, sessions: set<Id>, racing: set<Id>)
    requires ShotOk(s, now, expired, sessions, racing)
    ensures forall id | id in s.before.rows && id != s.id :: id in s.after.rows && s.after.rows[id] == s.before.rows[id]
    ensures s.after.rows.Keys == s.before.rows.Keys
    ensures s.id in s.before.rows ==>
      var was, row := s.before.rows[s.id], s.after.rows[s.id];
      match s.outcome
      case Deferred | LostRace => row == was
      case PausedForReauth => row == if was.status == Scheduled then was.(status := Paused, nextRun := None) else was
      case SessionGone => row.status in {Canceled, Completed} && row.nextRun == None && row.lastRun == Some(now)
      case TurnRaced | Spawned =>
        && row.lastRun == Some(now) && row.session == was.session && row.kind == was.kind
        && (was.kind.Once? ==> row.status == Completed && row.nextRun == None)
        && (was.kind.Recurring? ==> ForNextFire(row, was.kind.spec, now))
  {
    if s.id in s.before.rows { NextRunIsFirst(s.before.rows[s.id].kind, now); }
  }

  lemma ShotFires(s: Shot, now: nat, expired: set<Id>, sessions: set<Id>, racing: set<Id>)
    requires ShotOk(s, now, expired, sessions, racing) && Claimable(s.before, s.id, now) && s.before.rows[s.id] == s.row
    ensures FiredOne(s.before, s.after, s.id, s.outcome, now, expired)
  {
    ClaimedIsNotDue(s.row, now);
  }

  predicate Tried(shots: seq<Shot>, id: Id) { exists s | s in shots :: s.id == id }

  /** Shots are taken at rows due when listed, at most one at each, and `spawned` is what they spawned. */
  ghost predicate Volley(shots: seq<Shot>, listed: Rows, now: nat, spawned: set<Id>) {
    && (forall s | s in shots :: s.id in listed && s.row == listed[s.id] && Due(s.row, now))
    && (forall i, j | 0 <= i < j < |shots| :: shots[i].id != shots[j].id)
    && (forall id :: id in spawned <==> exists s | s in shots :: s.id == id && s.outcome.Spawned?)
  }

  lemma VolleyMore(shots: seq<Shot>, listed: Rows, now: nat, spawned: set<Id>, shot: Shot)
    requires Volley(shots, listed, now, spawned) && !Tried(shots, shot.id)
    requires shot.id in listed && shot.row == listed[shot.id] && Due(shot.row, now)
    ensures Volley(shots + [shot], listed, now, if shot.outcome.Spawned? then spawned + {shot.id} else spawned)
    ensures forall id :: Tried(shots + [shot], id) <==> Tried(shots, id) || id == shot.id
  {
    assert shot in shots + [shot];
    forall s | s in shots ensures s in shots + [shot] {}
    forall i | 0 <= i < |shots| ensures shots[i].id != shot.id { assert shots[i] in shots; }
  }

  function Latest(start: Poll, shots: seq<Shot>): Poll { if shots == [] then start else shots[|shots| - 1].after }

  lemma LatestSnoc(start: Poll, shots: seq<Shot>, shot: Shot)
    ensures Latest(start, shots + [shot]) == shot.after
    ensures forall i | 0 <= i < |shots| :: (shots + [shot])[..i] == shots[..i]
    ensures (shots + [shot])[..|shots|] == shots
  {}

  /** Each shot found what others had made of what the one before it left. */
  ghost predicate Interleaved(start: Poll, shots: seq<Shot>, others: (nat, Poll) -> Poll) {
    forall i | 0 <= i < |shots| :: shots[i].before == others(i, Latest(start, shots[..i]))
  }

  lemma InterleavedMore(start: Poll, shots: seq<Shot>, others: (nat, Poll) -> Poll, shot: Shot)
    requires Interleaved(start, shots, others) && shot.before == others(|shots|, Latest(start, shots))
    ensures Interleaved(start, shots + [shot], others)
  {
    LatestSnoc(start, shots, shot);
  }

  /** Nobody else changes anything. */
  ghost predicate Alone(others: (nat, Poll) -> Poll) { forall n, p :: others(n, p) == p }

  /** A poll that began at `start` with `todo` still to be tried. */
  ghost predicate Polling(start: Poll, view: Poll, todo: set<Id>, spawned: set<Id>, shots: seq<Shot>, now: nat,
                          expired: set<Id>, sessions: set<Id>, racing: set<Id>, others: (nat, Poll) -> Poll,
                          stop: nat -> bool) {
    && Accounted(start.rows, todo, spawned, shots, now)
    && Taken(start, view, shots, now, expired, sessions, racing, others, stop)
    && (Alone(others) ==> Polled(start, view, todo, spawned, now, expired))
  }

  /** The shots so far, each decided by its guards, with whatever others did in between. */
  ghost predicate Taken(start: Poll, view: Poll, shots: seq<Shot>, now: nat, expired: set<Id>, sessions: set<Id>,
                        racing: set<Id>, others: (nat, Poll) -> Poll, stop: nat -> bool) {
    && (forall i | 0 <= i < |shots| :: ShotOk(shots[i], now, expired, sessions, racing) && !stop(i))
    && Interleaved(start, shots, others) && view == Latest(start, shots)
  }

  lemma TakenStep(start: Poll, view: Poll, shots: seq<Shot>, now: nat, expired: set<Id>, sessions: set<Id>,
                  racing: set<Id>, others: (nat, Poll) -> Poll, stop: nat -> bool, shot: Shot)
    requires Taken(start, view, shots, now, expired, sessions, racing, others, stop) && !stop(|shots|)
    requires ShotOk(shot, now, expired, sessions, racing) && shot.before == others(|shots|, view)
    ensures Taken(start, shot.after, shots + [shot], now, expired, sessions, racing, others, stop)
  {
    InterleavedMore(start, shots, others, shot);
    LatestSnoc(start, shots, shot);
  }

  ghost predicate Accounted(listed: Rows, todo: set<Id>, spawned: set<Id>, shots: seq<Shot>, now: nat) {
    && Volley(shots, listed, now, spawned)
    && (forall id | id in todo :: id in listed && Due(listed[id], now) && !Tried(shots, id))
    && (forall id | id in listed && Due(listed[id], now) :: id in todo || Tried(shots, id))
  }

  function With(spawned: set<Id>, shot: Shot): set<Id> {
    if shot.outcome.Spawned? then spawned + {shot.id} else spawned
  }

  lemma AccountedStep(listed: Rows, todo: set<Id>, spawned: set<Id>, shots: seq<Shot>, now: nat, shot: Shot)
    requires Accounted(listed, todo, spawned, shots, now) && shot.id in todo && shot.row == listed[shot.id]
    ensures Accounted(listed, todo - {shot.id}, With(spawned, shot), shots + [shot], now)
  {
    VolleyMore(shots, listed, now, spawned, shot);
  }

  lemma AloneStep(start: Poll, view: Poll, todo: set<Id>, spawned: set<Id>, now: nat, expired: set<Id>,
                  sessions: set<Id>, racing: set<Id>, shot: Shot)
    requires Polled(start, view, todo, spawned, now, expired) && shot.id in todo && shot.before == view
    requires shot.row == start.rows[shot.id] && ShotOk(shot, now, expired, sessions, racing)
    ensures Polled(start, shot.after, todo - {shot.id}, With(spawned, shot), now, expired)
  {
    ShotFires(shot, now, expired, sessions, racing);
    PolledStep(start, view, shot.after, todo, spawned, shot.id, shot.outcome, now, expired);
  }

  lemma PollingStep(start: Poll, view: Poll, todo: set<Id>, spawned: set<Id>, shots: seq<Shot>, now: nat,
                    expired: set<Id>, sessions: set<Id>, racing: set<Id>, others: (nat, Poll) -> Poll,
                    stop: nat -> bool, shot: Shot)
    requires Polling(start, view, todo, spawned, shots, now, expired, sessions, racing, others, stop)
    requires shot.id in todo && shot.row == start.rows[shot.id] && !stop(|shots|)
    requires ShotOk(shot, now, expired, sessions, racing) && shot.before == others(|shots|, view)
    ensures Polling(start, shot.after, todo - {shot.id}, With(spawned, shot), shots + [shot], now,
                    expired, sessions, racing, others, stop)
  {
    AccountedStep(start.rows, todo, spawned, shots, now, shot);
    TakenStep(start, view, shots, now, expired, sessions, racing, others, stop, shot);
    if Alone(others) { AloneStep(start, view, todo, spawned, now, expired, sessions, racing, shot); }
  }

  /** A row's kind never changes, nor does a row come back under another. */
  predicate SameKinds(listed: Rows, rows: Rows) {
    forall id | id in listed && id in rows :: rows[id].kind == listed[id].kind
  }

  ghost predicate KeepsKinds(listed: Rows, others: (nat, Poll) -> Poll) {
    forall n, p: Poll :: SameKinds(listed, p.rows) ==> SameKinds(listed, others(n, p).rows)
  }

  lemma KindsKept(listed: Rows, rows: Rows, id: Id, now: nat, o: Outcome)
    requires SameKinds(listed, rows)
    ensures SameKinds(listed, RowsAfter(rows, id, now, o))
  {}

  /** What the poller sees and changes. */
  datatype Poll = Poll(rows: Rows, busy: set<Id>, tokens: set<Id>)

  predicate Settled(p: Poll, id: Id, now: nat)
    requires id in p.rows
  {
    p.rows[id].session in p.busy || !Due(p.rows[id], now)
  }

  /** From `p` to `q` one due row has been tried. */
  ghost predicate FiredOne(p: Poll, q: Poll, id: Id, o: Outcome, now: nat, expired: set<Id>) {
    && id in p.rows && q.rows.Keys == p.rows.Keys && (forall k | k in p.rows && k != id :: q.rows[k] == p.rows[k])
    && q.rows[id].session == p.rows[id].session && Settled(q, id, now)
    && q.busy == (if o.Spawned? then p.busy + {p.rows[id].session} else p.busy) && q.tokens <= p.tokens
    && (o.Spawned? ==> p.rows[id].session !in p.busy && id in p.tokens && id !in expired)
    && (o.Spawned? ==> q.rows[id] == Claimed(p.rows[id], now))
  }

  /** From `p` to `q` every due row but `todo` has been tried: those spawned had a live token, were claimed, and are
      one to a session; those tried are no longer due unless their session is busy; no other row has changed. */
  ghost predicate Polled(p: Poll, q: Poll, todo: set<Id>, spawned: set<Id>, now: nat, expired: set<Id>) {
    RowsPolled(p, q, todo, spawned, now) && OnePerSession(p, q, spawned, now, expired)
  }

  ghost predicate RowsPolled(p: Poll, q: Poll, todo: set<Id>, spawned: set<Id>, now: nat) {
    && q.rows.Keys == p.rows.Keys && p.busy <= q.busy && q.tokens <= p.tokens
    && (forall id | id in todo + spawned :: id in p.rows && Due(p.rows[id], now)) && todo !! spawned
    && (forall id | id in p.rows && (id in todo || !Due(p.rows[id], now)) :: q.rows[id] == p.rows[id])
    && (forall id | id in p.rows && id !in todo :: Settled(q, id, now))
  }

  ghost predicate OnePerSession(p: Poll, q: Poll, spawned: set<Id>, now: nat, expired: set<Id>) {
    && (forall id | id in spawned :: id in p.rows && id in q.rows && q.rows[id] == Claimed(p.rows[id], now))
    && (forall id | id in spawned :: q.rows[id].session in q.busy && id in p.tokens && id !in expired)
    && (forall i, j | i in spawned && j in spawned && q.rows[i].session == q.rows[j].session :: i == j)
  }

  lemma RowsStep(p: Poll, q: Poll, r: Poll, todo: set<Id>, spawned: set<Id>, id: Id, o: Outcome, now: nat,
                 expired: set<Id>)
    requires RowsPolled(p, q, todo, spawned, now) && id in todo && FiredOne(q, r, id, o, now, expired)
    ensures RowsPolled(p, r, todo - {id}, if o.Spawned? then spawned + {id} else spawned, now)
  {}

  lemma OnePerSessionStep(p: Poll, q: Poll, r: Poll, todo: set<Id>, spawned: set<Id>, id: Id, o: Outcome, now: nat,
                          expired: set<Id>)
    requires Polled(p, q, todo, spawned, now, expired) && id in todo && FiredOne(q, r, id, o, now, expired)
    ensures OnePerSession(p, r, if o.Spawned? then spawned + {id} else spawned, now, expired)
  {
    assert q.rows[id] == p.rows[id];
  }

  lemma PolledStep(p: Poll, q: Poll, r: Poll, todo: set<Id>, spawned: set<Id>, id: Id, o: Outcome, now: nat,
                   expired: set<Id>)
    requires Polled(p, q, todo, spawned, now, expired) && id in todo && FiredOne(q, r, id, o, now, expired)
    ensures Polled(p, r, todo - {id}, if o.Spawned? then spawned + {id} else spawned, now, expired)
  {
    RowsStep(p, q, r, todo, spawned, id, o, now, expired);
    OnePerSessionStep(p, q, r, todo, spawned, id, o, now, expired);
  }

  /** The table after one attempt to fire. */
  function RowsAfter(rows: Rows, id: Id, now: nat, o: Outcome): Rows {
    if id !in rows then rows
    else match o
      case Deferred | LostRace => rows
      case PausedForReauth => rows[id := PausedRow(rows[id])]
      case TurnRaced | Spawned => rows[id := Claimed(rows[id], now)]
      case SessionGone =>
        var claimed := Claimed(rows[id], now);
        rows[id := if claimed.status.Scheduled? then CanceledRow(claimed) else claimed]
  }

  lemma ClaimedIsNotDue(row: Row, now: nat)
    ensures !Due(Claimed(row, now), now) || !row.status.Scheduled?
  {
    if row.kind.Recurring? && NextRun(row.kind, now).Some? { NextRunIsLater(row.kind, now); }
  }
}
