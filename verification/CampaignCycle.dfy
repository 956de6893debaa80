/** One pacing cycle of a campaign: the budget it starts from, and its account of what it has sent and spent. */
module CampaignCycle {
  import opened CampaignAccepted
  import opened CampaignLedger
  import opened CampaignMailboxes
  import opened CampaignPacing
  import opened CampaignPool
  import opened Emails
  import opened Options

  /** A cycle: when its budget was drawn up, the domains in order with their mailboxes, the budget, what is left of it,
      and the rows it added to the log. */
  datatype Cycle = Cycle(at: nat, domains: seq<Domain>, groups: map<Domain, seq<nat>>, allowed: map<Domain, int>,
                         left: map<Domain, int>, rows: seq<Message>)

  predicate Within(budget: map<Domain, int>, domains: seq<Domain>) { forall d | d in budget :: d in domains }

  function Attempted(r: Recipient, k: nat, d: Domain, ok: bool, at: nat): Message {
    if ok then Sent(Some(r.campaign), r.email, k, d, at) else Failed(Some(r.campaign), r.email, k, d)
  }

  /** How one recipient's turn went. */
  datatype Attempt = Skipped(reason: Reason) | NoBudget | Tried(sent: bool)

  /** Everything a cycle changes: the pool, what was logged and accepted, the budget left and whose turn it is. */
  datatype Progress = Progress(pool: seq<Recipient>, log: seq<Message>, accepted: seq<Message>, left: map<Domain, int>,
                               turns: map<Domain, nat>)

  /** An attempt from domain `d`: its row, from the mailbox whose turn it is, and what it does to the recipient, the
      budget and the turns. */
  predicate SentVia(d: Domain, p: Progress, q: Progress, i: nat, byDomain: map<Domain, seq<nat>>, sent: bool, at: nat)
    requires i < |p.pool|
  {
    && d in byDomain && byDomain[d] != [] && d in p.left
    && var m := Attempted(p.pool[i], Next(byDomain[d], Turn(p.turns, d)), d, sent, at);
      q == Progress(p.pool[i := p.pool[i].(standing := if sent then Messaged else Undeliverable)],
                    p.log + [m], p.accepted + SentRows([m]), if sent then Spent(p.left, d) else p.left,
                    p.turns[d := Turn(p.turns, d) + 1])
  }

  lemma WentVia(d: Domain, p: Progress, pool: seq<Recipient>, log: seq<Message>, accepted: seq<Message>, i: nat,
                byDomain: map<Domain, seq<nat>>, sent: bool, at: nat)
    requires i < |p.pool| && d in byDomain && byDomain[d] != [] && d in p.left
    requires pool == p.pool[i := p.pool[i].(standing := if sent then Messaged else Undeliverable)]
    requires var m := Attempted(p.pool[i], Next(byDomain[d], Turn(p.turns, d)), d, sent, at);
      log == p.log + [m] && accepted == p.accepted + SentRows([m])
    ensures SentVia(d, p, Progress(pool, log, accepted, if sent then Spent(p.left, d) else p.left,
                                   p.turns[d := Turn(p.turns, d) + 1]), i, byDomain, sent, at)
  {}

  /** One recipient's turn: out of budget, suppressed, or tried from the domain picked. */
  predicate TurnOk(p: Progress, q: Progress, i: nat, strategy: Strategy, domains: seq<Domain>,
                   byDomain: map<Domain, seq<nat>>, outcome: Attempt, at: nat)
    requires i < |p.pool|
  {
    var d := PickDomain(strategy, domains, p.left);
    match outcome
    case NoBudget => d.None? && q == p
    case Skipped(reason) => q == p.(pool := p.pool[i := p.pool[i].(standing := Suppressed(reason))])
    case Tried(sent) => d.Some? && SentVia(d.value, p, q, i, byDomain, sent, at)
  }

  /** Why a person is not to be sent to: the campaign's own log first, then the shared one within the cooldown. */
  function ReasonAt(log: seq<Message>, c: nat, email: string, cooldown: nat, now: nat): Option<Reason> {
    if SentInCampaign(log, c, email) then Some(AlreadySentInCampaign)
    else if Contacted(log, email, cooldown, now) then Some(GloballyContacted)
    else None
  }

  /** Who is skipped is whom the log, as checked, gives that reason for; anybody else it gives none. */
  predicate Screened(p: Progress, i: nat, outcome: Attempt, checked: nat, cooldown: nat)
    requires i < |p.pool|
  {
    ReasonAt(p.log, p.pool[i].campaign, p.pool[i].email, cooldown, checked)
    == if outcome.Skipped? then Some(outcome.reason) else None
  }

  lemma OneRow(accepted: seq<Message>, m: Message)
    ensures accepted + SentRows([m]) == if m.Sent? then accepted + [m] else accepted
  {
    SentRowsSnoc([], m);
    assert [] + [m] == [m];
  }

  /** An attempt within the budget, on somebody found unsuppressed at `checked`, keeps caps and spacing. */
  lemma AttemptKeeps(log: seq<Message>, accepted: seq<Message>, r: Recipient, k: nat, d: Domain, ok: bool, checked: nat,
                     start: nat, at: nat, end: nat, cap: int, cooldown: nat, budget: map<Domain, int>)
    requires MailOk(log, accepted, start, cap, cooldown) && Room(log, start, cap, budget)
    requires checked <= start <= at <= end && d in budget && budget[d] > 0
    requires !SentInCampaign(log, r.campaign, r.email) && !Contacted(log, r.email, cooldown, checked)
    requires Norm(r.email) == r.email
    ensures var m := Attempted(r, k, d, ok, at);
      && MailOk(log + [m], accepted + SentRows([m]), end, cap, cooldown)
      && Room(log + [m], end, cap, if ok then Spent(budget, d) else budget)
  {
    var m := Attempted(r, k, d, ok, at);
    OneRow(accepted, m);
    if ok {
      SuccessKeeps(log, accepted, m, checked, start, end, cap, cooldown, budget);
    } else {
      MailFailed(log, accepted, m, start, cap, cooldown, budget);
      MailLater(log + [m], accepted, start, end, cap, cooldown);
      RoomLater(log + [m], start, end, cap, budget);
    }
  }

  lemma SuccessKeeps(log: seq<Message>, accepted: seq<Message>, m: Message, checked: nat, start: nat, end: nat,
                     cap: int, cooldown: nat, budget: map<Domain, int>)
    requires MailOk(log, accepted, start, cap, cooldown) && Room(log, start, cap, budget)
    requires m.Sent? && checked <= start <= m.at <= end && m.domain in budget && budget[m.domain] > 0
    requires !Contacted(log, m.person, cooldown, checked) && Norm(m.person) == m.person
    requires m.campaign.Some? ==> !SentInCampaign(log, m.campaign.value, m.person)
    ensures MailOk(log + [m], accepted + [m], end, cap, cooldown)
    ensures Room(log + [m], end, cap, Spent(budget, m.domain))
  {
    RoomLater(log, start, m.at, cap, budget);
    MailSent(log, accepted, m, start, cap, cooldown, checked, budget);
    MailLater(log + [m], accepted + [m], m.at, end, cap, cooldown);
    RoomLater(log + [m], m.at, end, cap, Spent(budget, m.domain));
  }

  /** What a cycle adds to the log: attempts for its own campaign, each from the mailbox whose turn it is. */
  ghost predicate CycleRows(rows: seq<Message>, c: nat, byDomain: map<Domain, seq<nat>>) {
    (forall m | m in rows :: m.campaign == Some(c)) && TakesTurns(rows, byDomain)
  }

  /** What was sent between two logs is what was spent between two budgets, domain by domain. */
  ghost predicate Balances(log0: seq<Message>, log: seq<Message>, allowed: map<Domain, int>, left: map<Domain, int>) {
    && log0 <= log
    && forall d: Domain :: SentSince(log, d, 0) - SentSince(log0, d, 0) == Share(allowed, d) - Share(left, d)
  }

  lemma StillBalances(log0: seq<Message>, log1: seq<Message>, log2: seq<Message>, m: Message,
                      allowed: map<Domain, int>, left1: map<Domain, int>, left2: map<Domain, int>)
    requires Balances(log0, log1, allowed, left1) && log2 == log1 + [m]
    requires m.domain in left1 && left2 == if m.Sent? then Spent(left1, m.domain) else left1
    ensures Balances(log0, log2, allowed, left2)
  {
    forall d: Domain
      ensures SentSince(log2, d, 0) == SentSince(log1, d, 0) + if m.Sent? && m.domain == d then 1 else 0
    {
      SentSinceSnoc(log1, m, d, 0);
    }
  }

  /** How far a cycle has come since `p`, by the attempts in `sent` and the rows it has added. */
  ghost predicate SoFar(p: Progress, q: Progress, rows: seq<Message>, sent: seq<bool>, c: nat, strategy: Strategy,
                        domains: seq<Domain>, byDomain: map<Domain, seq<nat>>) {
    && q.log == p.log + rows && q.accepted == p.accepted + SentRows(rows) && Balances(p.log, q.log, p.left, q.left)
    && CycleRows(rows, c, byDomain) && Counted(rows, q.turns)
    && q.left == AfterAttempts(strategy, domains, p.left, sent) && Within(q.left, domains)
  }

  lemma SoFarTried(p: Progress, q: Progress, r: Progress, rows: seq<Message>, sent: seq<bool>, c: nat,
                   strategy: Strategy, domains: seq<Domain>, byDomain: map<Domain, seq<nat>>, i: nat, ok: bool,
                   m: Message, at: nat)
    requires SoFar(p, q, rows, sent, c, strategy, domains, byDomain)
    requires i < |q.pool| && q.pool[i].campaign == c && TurnOk(q, r, i, strategy, domains, byDomain, Tried(ok), at)
    requires r.log == q.log + [m]
    ensures SoFar(p, r, rows + [m], sent + [ok], c, strategy, domains, byDomain)
  {
    assert r.log[|q.log|] == m;
    AttemptsSnoc(strategy, domains, p.left, sent, ok);
    StillBalances(p.log, q.log, r.log, m, p.left, q.left, r.left);
    NextTurn(rows, m, q.turns, byDomain);
    Grouping(p.log, rows, [m]);
    SentRowsAppend(rows, [m]);
    Grouping(p.accepted, SentRows(rows), SentRows([m]));
  }

  lemma SoFarTurn(p: Progress, q: Progress, r: Progress, rows: seq<Message>, sent: seq<bool>, c: nat,
                  strategy: Strategy, domains: seq<Domain>, byDomain: map<Domain, seq<nat>>, i: nat, outcome: Attempt,
                  at: nat)
    returns (moreRows: seq<Message>, moreSent: seq<bool>)
    requires SoFar(p, q, rows, sent, c, strategy, domains, byDomain)
    requires i < |q.pool| && q.pool[i].campaign == c && TurnOk(q, r, i, strategy, domains, byDomain, outcome, at)
    ensures SoFar(p, r, moreRows, moreSent, c, strategy, domains, byDomain)
  {
    moreRows, moreSent := rows, sent;
    if outcome.Tried? {
      var m := r.log[|q.log|];
      SoFarTried(p, q, r, rows, sent, c, strategy, domains, byDomain, i, outcome.sent, m, at);
      moreRows, moreSent := rows + [m], sent + [outcome.sent];
    }
  }

  /** Places of recipients a cycle is to go through. */
  predicate Waiting(pool: seq<Recipient>, places: seq<nat>, c: nat) {
    && (forall i | 0 <= i < |places| :: places[i] < |pool| && IsPending(pool[places[i]], c))
    && (forall i, j | 0 <= i < j < |places| :: places[i] < places[j])
  }

  /** A cycle has dealt with the first `i` of them and not touched the others. */
  predicate Reached(before: seq<Recipient>, pool: seq<Recipient>, places: seq<nat>, i: nat, c: nat) {
    && Waiting(before, places, c) && i <= |places| && Moved(before, pool, c)
    && (forall j | i <= j < |places| :: pool[places[j]] == before[places[j]])
    && (forall j | 0 <= j < i :: pool[places[j]] != before[places[j]])
  }

  /** A turn takes its recipient out of the pending state, unless the budget is used up. */
  lemma ReachedNext(before: seq<Recipient>, p: Progress, q: Progress, places: seq<nat>, i: nat, c: nat,
                    strategy: Strategy, domains: seq<Domain>, byDomain: map<Domain, seq<nat>>, outcome: Attempt,
                    at: nat)
    requires Reached(before, p.pool, places, i, c) && i < |places|
    requires TurnOk(p, q, places[i], strategy, domains, byDomain, outcome, at)
    ensures if outcome.NoBudget? then q == p else Reached(before, q.pool, places, i + 1, c)
  {
    if !outcome.NoBudget? {
      OneMore(before, p.pool, q.pool, c, places[i]);
      forall j | i < j < |places| ensures q.pool[places[j]] == before[places[j]] { assert places[i] < places[j]; }
      forall j | 0 <= j < i ensures q.pool[places[j]] == p.pool[places[j]] { assert places[j] < places[i]; }
    }
  }

  lemma {:induction false} PlacesAsSet(places: seq<nat>)
    requires forall i, j | 0 <= i < j < |places| :: places[i] < places[j]
    ensures |set k: int | k in places| == |places|
  {
    if places != [] {
      var n := |places| - 1;
      PlacesAsSet(places[..n]);
      assert places == places[..n] + [places[n]];
      assert places[n] !in places[..n];
      assert (set k: int | k in places) == (set k: int | k in places[..n]) + {places[n]};
    }
  }

  /** Recipients dealt with at that many places are that many fewer pending ones; none is left if those were all. */
  lemma DealtWith(before: seq<Recipient>, after: seq<Recipient>, c: nat, places: seq<nat>)
    requires Waiting(before, places, c) && Moved(before, after, c)
    requires forall j | 0 <= j < |places| :: after[places[j]] != before[places[j]]
    ensures CountPending(after, c) + |places| <= CountPending(before, c)
    ensures (forall k | 0 <= k < |before| && IsPending(before[k], c) :: k in places) ==> CountPending(after, c) == 0
  {
    PendingCounts(before, c);
    PendingCounts(after, c);
    PlacesAsSet(places);
    var p, q := PendingPlaces(before, c), PendingPlaces(after, c);
    var done := set k: int | k in places;
    assert done <= p && q <= p - done;
    Sizes(q, p - done);
  }

  lemma Sizes(q: set<int>, p: set<int>)
    requires q <= p
    ensures |q| <= |p|
  {
    assert p == q + (p - q);
  }

  /** A cycle goes on until its budget is used up, or it has dealt with everybody it had taken up: four recipients for
      every send allowed and twenty more, or all there are. */
  predicate Thorough(y: Cycle, before: seq<Recipient>, after: seq<Recipient>, c: nat) {
    || (forall d | d in y.left :: y.left[d] <= 0)
    || CountPending(after, c) == 0
    || CountPending(after, c) + 4 * Total(y.domains, y.allowed) + 20 <= CountPending(before, c)
  }

  predicate FailedInCampaign(log: seq<Message>, c: nat, person: string) {
    exists m | m in log :: m.Failed? && m.campaign == Some(c) && m.person == person
  }

  /** The log bears out where a recipient stands: what was sent to it, what failed, and what it was suppressed for. */
  predicate Warranted(r: Recipient, log: seq<Message>, cooldown: nat, since: nat) {
    match r.standing
    case Pending => true
    case Messaged => SentInCampaign(log, r.campaign, r.email)
    case Undeliverable => FailedInCampaign(log, r.campaign, r.email)
    case Suppressed(AlreadySentInCampaign) => SentInCampaign(log, r.campaign, r.email)
    case Suppressed(GloballyContacted) => Contacted(log, r.email, cooldown, since)
  }

  predicate AllWarranted(before: seq<Recipient>, after: seq<Recipient>, log: seq<Message>, cooldown: nat, since: nat) {
    && |after| == |before|
    && forall i | 0 <= i < |after| && after[i] != before[i] :: Warranted(after[i], log, cooldown, since)
  }

  lemma StaysWarranted(r: Recipient, log: seq<Message>, more: seq<Message>, cooldown: nat, since: nat)
    requires Warranted(r, log, cooldown, since) && log <= more
    ensures Warranted(r, more, cooldown, since)
  {
    forall m | m in log ensures m in more {}
  }

  lemma TurnIsWarranted(p: Progress, q: Progress, i: nat, strategy: Strategy, domains: seq<Domain>,
                        byDomain: map<Domain, seq<nat>>, outcome: Attempt, at: nat, checked: nat, cooldown: nat,
                        since: nat)
    requires i < |p.pool| && TurnOk(p, q, i, strategy, domains, byDomain, outcome, at) && !outcome.NoBudget?
    requires Screened(p, i, outcome, checked, cooldown) && since <= checked
    ensures p.log <= q.log && q.pool == p.pool[i := q.pool[i]] && Warranted(q.pool[i], q.log, cooldown, since)
  {
    if outcome.Tried? { assert q.log[|p.log|] in q.log; }
  }

  /** A turn leaves everybody's standing borne out by the log. */
  lemma WarrantedNext(before: seq<Recipient>, p: Progress, q: Progress, i: nat, strategy: Strategy,
                      domains: seq<Domain>, byDomain: map<Domain, seq<nat>>, outcome: Attempt, at: nat, checked: nat,
                      cooldown: nat, since: nat)
    requires AllWarranted(before, p.pool, p.log, cooldown, since) && i < |p.pool| && since <= checked
    requires TurnOk(p, q, i, strategy, domains, byDomain, outcome, at) && Screened(p, i, outcome, checked, cooldown)
    ensures AllWarranted(before, q.pool, q.log, cooldown, since)
  {
    if !outcome.NoBudget? {
      TurnIsWarranted(p, q, i, strategy, domains, byDomain, outcome, at, checked, cooldown, since);
      forall j | 0 <= j < |p.pool| && j != i && p.pool[j] != before[j]
        ensures Warranted(q.pool[j], q.log, cooldown, since)
      {
        StaysWarranted(p.pool[j], p.log, q.log, cooldown, since);
      }
    }
  }

  /** A whole cycle between two states of the books: the owner's domains and mailboxes, a budget drawn up from the log
      as it was, and sends that fit it. */
  ghost predicate CycleOk(y: Cycle, c: nat, campaign: Campaign, b: Books, a: Books, cap: int, perCycle: nat) {
    && b.clock <= y.at <= a.clock && Grouped(b.accounts, campaign.owner, y.groups)
    && Ascending(y.domains) && (forall d :: d in y.domains <==> d in y.groups)
    && BudgetFor(campaign.strategy, y.domains, b.log, cap, perCycle, y.at, y.allowed)
    && Paced(y, c, campaign.strategy, b, a)
  }

  /** The sends of a cycle, attempt by attempt from its own budget. */
  ghost predicate Paced(y: Cycle, c: nat, strategy: Strategy, b: Books, a: Books) {
    && a.log == b.log + y.rows && a.accepted == b.accepted + SentRows(y.rows) && CycleRows(y.rows, c, y.groups)
    && Balances(b.log, a.log, y.allowed, y.left) && (forall d | d in y.left :: y.left[d] >= 0)
    && (strategy.Balanced? ==> Even(y.allowed, y.left))
  }

  /** The cycle of an owner without mailboxes sends nothing. */
  lemma NoCycle(c: nat, campaign: Campaign, b: Books, groups: map<Domain, seq<nat>>, cap: int, perCycle: nat)
    returns (y: Cycle)
    requires Grouped(b.accounts, campaign.owner, groups) && forall d :: d !in groups
    ensures CycleOk(y, c, campaign, b, b, cap, perCycle) && y.left == map[]
  {
    y := Cycle(b.clock, [], groups, map[], map[], []);
  }

  lemma CyclePaced(y: Cycle, c: nat, strategy: Strategy, b: Books, a: Books, p: Progress, q: Progress, sent: seq<bool>)
    requires SoFar(p, q, y.rows, sent, c, strategy, y.domains, y.groups)
    requires p.log == b.log && p.accepted == b.accepted && q.log == a.log && q.accepted == a.accepted
    requires p.left == y.allowed && q.left == y.left && Within(p.left, y.domains)
    requires forall d | d in q.left :: q.left[d] >= 0
    ensures Paced(y, c, strategy, b, a)
  {
    BalancedStaysEven(y.domains, p.left, p.left, sent);
  }

  /** No cycle sends more from a domain than the cycle limit, or than the day had left when its budget was drawn up; a
      sequential one sends only from the first domain with room. */
  lemma CycleLimits(y: Cycle, c: nat, campaign: Campaign, b: Books, a: Books, cap: int, perCycle: nat, d: Domain)
    requires CycleOk(y, c, campaign, b, a, cap, perCycle)
    ensures var n := SentSince(y.rows, d, 0);
      && n <= perCycle && (n > 0 ==> d in y.groups && n <= Left(b.log, cap, d, y.at))
      && (n > 0 && campaign.strategy.Sequential? ==>
            forall e | e in y.groups && e < d :: Left(b.log, cap, e, y.at) <= 0)
  {
    SentSinceAppend(b.log, y.rows, d, 0);
    var n := SentSince(y.rows, d, 0);
    assert n == Share(y.allowed, d) - Share(y.left, d);
    if n > 0 && campaign.strategy.Sequential? {
      forall e | e in y.groups && e < d ensures Left(b.log, cap, e, y.at) <= 0 {
        EarlierIsFull(y.domains, b.log, cap, y.at, y.allowed, e, d);
      }
    }
  }

  /** A tick sends from the owner's own active mailboxes only, and has every domain that has one in its reach. */
  lemma CycleMailboxes(y: Cycle, c: nat, campaign: Campaign, b: Books, a: Books, cap: int, perCycle: nat)
    requires CycleOk(y, c, campaign, b, a, cap, perCycle)
    ensures forall m | m in y.rows ::
      && m.account < |b.accounts| && b.accounts[m.account].owner == campaign.owner && b.accounts[m.account].active
      && b.accounts[m.account].domain == m.domain
    ensures forall k: nat | k < |b.accounts| && b.accounts[k].owner == campaign.owner && b.accounts[k].active ::
      b.accounts[k].domain in y.domains
  {
    forall m | m in y.rows ensures m.domain in y.groups && m.account in y.groups[m.domain] {
      var i :| 0 <= i < |y.rows| && y.rows[i] == m;
      assert InTurn(y.rows, i, y.groups);
    }
    forall k: nat | k < |b.accounts| && Mine(b.accounts[k], campaign.owner) ensures b.accounts[k].domain in y.groups {
      assert k in Mailboxes(b.accounts, campaign.owner, b.accounts[k].domain);
    }
  }

  lemma {:induction false} SentSinceAppend(log: seq<Message>, rows: seq<Message>, d: Domain, t: nat)
    ensures SentSince(log + rows, d, t) == SentSince(log, d, t) + SentSince(rows, d, t)
  {
    if rows == [] {
      assert log + rows == log;
    } else {
      var front, m := rows[..|rows| - 1], rows[|rows| - 1];
      SentSinceAppend(log, front, d, t);
      Grouping(log, front, [m]);
      assert front + [m] == rows;
      SentSinceSnoc(log + front, m, d, t);
    }
  }

  lemma EarlierIsFull(domains: seq<Domain>, log: seq<Message>, cap: int, now: nat, budget: map<Domain, int>,
                      e: Domain, d: Domain)
    requires Ascending(domains) && OnlyFirst(domains, log, cap, now, budget)
    requires e in domains && d in domains && e < d && d in budget
    ensures Left(log, cap, e, now) <= 0
  {
    var i :| 0 <= i < |domains| && domains[i] == e;
    var j :| 0 <= j < |domains| && domains[j] == d;
    assert i < j;
  }
}
