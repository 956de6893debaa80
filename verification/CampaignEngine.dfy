/** The campaign engine: paced ticks, one-off sends and recipient merges over one shared ledger. */
module CampaignEngine {
  import opened CampaignAccepted
  import opened CampaignCycle
  import opened CampaignLedger
  import opened CampaignMailboxes
  import opened CampaignOneOff
  import opened CampaignPacing
  import opened CampaignPool
  import opened Emails
  import opened Options

  function SentInCampaignSet(log: seq<Message>, c: nat, people: seq<string>): set<string> {
    set e | e in people && SentInCampaign(log, c, e)
  }

  function ContactedSet(log: seq<Message>, people: seq<string>, cooldown: nat, now: nat): set<string> {
    set e | e in people && Contacted(log, e, cooldown, now)
  }

  lemma BatchStanding(log: seq<Message>, c: nat, people: seq<string>, cooldown: nat, now: nat, e: string)
    requires e in people
    ensures StandingFrom(e, SentInCampaignSet(log, c, people), ContactedSet(log, people, cooldown, now))
         == FirstStanding(log, c, e, cooldown, now)
  {}

  function FirstStanding(log: seq<Message>, c: nat, email: string, cooldown: nat, now: nat): Standing {
    var reason := ReasonAt(log, c, email, cooldown, now);
    if reason.Some? then Suppressed(reason.value) else Pending
  }

  predicate SameMailboxes(a: seq<Account>, b: seq<Account>) {
    |a| == |b| && forall i | 0 <= i < |a| :: b[i].owner == a[i].owner && b[i].domain == a[i].domain
  }

  /** Every domain has mailboxes to send from. */
  predicate Served(accounts: seq<Account>, domains: seq<Domain>, byDomain: map<Domain, seq<nat>>) {
    && (forall d | d in domains :: d in byDomain && byDomain[d] != [])
    && (forall d, j | d in byDomain && 0 <= j < |byDomain[d]| ::
          byDomain[d][j] < |accounts| && accounts[byDomain[d][j]].domain == d)
  }

  predicate IsRunning(campaigns: map<nat, Campaign>, c: nat) { c in campaigns && campaigns[c].status.Running? }

  /** Some domain of the owner has room under its cap today. */
  predicate CanSend(owner: string, accounts: seq<Account>, log: seq<Message>, cap: int, now: nat) {
    exists a | a in accounts :: Mine(a, owner) && Left(log, cap, a.domain, now) > 0
  }

  lemma {:induction false} FewerSinceLater(log: seq<Message>, d: Domain, s: nat, t: nat)
    requires s <= t
    ensures SentSince(log, d, t) <= SentSince(log, d, s)
  {
    if log != [] { FewerSinceLater(log[..|log| - 1], d, s, t); }
  }

  lemma StillRoom(log: seq<Message>, cap: int, d: Domain, now: nat, later: nat)
    requires now <= later
    ensures Left(log, cap, d, later) >= Left(log, cap, d, now)
  {
    DaysPass(now, later);
    FewerSinceLater(log, d, DayStart(now), DayStart(later));
  }

  lemma BudgetIsPositive(domains: seq<Domain>, budget: map<Domain, int>)
    requires budget != map[] && Within(budget, domains) && forall d | d in budget :: budget[d] > 0
    ensures Total(domains, budget) > 0
  {
    TotalIsPositive(domains, budget);
    var d :| d in budget;
    assert Share(budget, d) > 0;
  }

  lemma NothingLeft(domains: seq<Domain>, left: map<Domain, int>)
    requires Within(left, domains) && forall d | d in left :: left[d] >= 0
    requires Total(domains, left) <= 0
    ensures forall d | d in left :: left[d] <= 0
  {
    TotalIsPositive(domains, left);
    forall d | d in left ensures left[d] <= 0 { assert Share(left, d) <= 0; }
  }

  predicate FewerPending(before: seq<Recipient>, after: seq<Recipient>, c: nat) {
    CountPending(before, c) > 0 ==> CountPending(after, c) < CountPending(before, c)
  }

  predicate HasMailbox(accounts: seq<Account>, owner: string) { exists a | a in accounts :: Mine(a, owner) }

  lemma OwnsItsDomain(accounts: seq<Account>, owner: string, a: Account)
    requires a in accounts && Mine(a, owner)
    ensures Owns(accounts, owner, a.domain)
  {
    var k :| 0 <= k < |accounts| && accounts[k] == a;
    assert k in Mailboxes(accounts, owner, a.domain);
  }

  lemma SomeDomain(owner: string, accounts: seq<Account>, log: seq<Message>, cap: int, now: nat, domains: seq<Domain>)
    returns (roomy: Domain)
    requires forall d: Domain :: d in domains <==> Owns(accounts, owner, d)
    ensures HasMailbox(accounts, owner) <==> domains != []
    ensures CanSend(owner, accounts, log, cap, now) ==> roomy in domains && Left(log, cap, roomy, now) > 0
  {
    roomy := 0;
    if CanSend(owner, accounts, log, cap, now) {
      var a :| a in accounts && Mine(a, owner) && Left(log, cap, a.domain, now) > 0;
      OwnsItsDomain(accounts, owner, a);
      roomy := a.domain;
    } else if HasMailbox(accounts, owner) {
      var a :| a in accounts && Mine(a, owner);
      OwnsItsDomain(accounts, owner, a);
    } else if domains != [] {
      var d := domains[0];
      assert Owns(accounts, owner, d) ==> Mailboxes(accounts, owner, d)[0] in Mailboxes(accounts, owner, d);
    }
  }

  /** The owner's active mailboxes by domain, and the domains in order. */
  method SendingDomains(accounts: seq<Account>, owner: string, ghost log: seq<Message>, ghost cap: int, ghost now: nat)
    returns (byDomain: map<Domain, seq<nat>>, domains: seq<Domain>, ghost roomy: Domain)
    ensures Served(accounts, domains, byDomain) && Grouped(accounts, owner, byDomain)
    ensures Ascending(domains) && forall d :: d in domains <==> d in byDomain
    ensures domains == [] <==> !HasMailbox(accounts, owner)
    ensures CanSend(owner, accounts, log, cap, now) ==> roomy in domains && Left(log, cap, roomy, now) > 0
  {
    byDomain := GroupByDomain(accounts, owner);
    forall d, j | d in byDomain && 0 <= j < |byDomain[d]|
      ensures byDomain[d][j] < |accounts| && accounts[byDomain[d][j]].domain == d
    {
      assert byDomain[d][j] in Mailboxes(accounts, owner, d);
    }
    domains := Sorted(byDomain.Keys);
    roomy := SomeDomain(owner, accounts, log, cap, now, domains);
  }

  class Engine {
    const capRow: Option<int>
    const capDefault: int
    const perCycle: nat
    const cooldown: nat
    var clock: nat
    var pool: seq<Recipient>
    var log: seq<Message>
    var campaigns: map<nat, Campaign>
    var accounts: seq<Account>
    /** Every message Gmail has accepted, dated when it was. */
    ghost var accepted: seq<Message>

    constructor (capRow: Option<int>, capDefault: int, perCycle: nat, cooldown: nat, clock: nat)
      ensures Ok() && log == [] && pool == [] && accepted == [] && this.clock == clock
      ensures this.capRow == capRow && this.capDefault == capDefault
      ensures this.perCycle == perCycle && this.cooldown == cooldown
    {
      this.capRow, this.capDefault, this.perCycle, this.cooldown := capRow, capDefault, perCycle, cooldown;
      this.clock, pool, log, campaigns, accounts, accepted := clock, [], [], map[], [], [];
    }

    function Cap(): int { GlobalCap(capRow, capDefault) }

    ghost function View(): Books
      reads this
    {
      Books(clock, log, accepted, accounts)
    }

    /** Where a cycle has come to. */
    ghost function Here(left: map<Domain, int>, turns: map<Domain, nat>): Progress
      reads this
    {
      Progress(pool, log, accepted, left, turns)
    }

    /** What every operation keeps: logged and accepted mail within the limits, the recipient pool clean, and in step
        with the log. */
    ghost predicate Ok()
      reads this
    {
      MailOk(log, accepted, clock, Cap(), cooldown) && PoolOk(pool) && Tallied(pool, log)
    }

    lemma AllLimitsKept()
      requires Ok()
      ensures LimitsKept(log, capRow, capDefault, cooldown)
      ensures Matched(accepted, log) ==> LimitsKept(accepted, capRow, capDefault, cooldown)
    {
      LimitsFollow(log, clock, capRow, capDefault, cooldown);
      if Matched(accepted, log) {
        AcceptedTidy(accepted, log);
        LimitsFollow(accepted, clock, capRow, capDefault, cooldown);
      }
    }

    /** Time passes, by any amount, wherever the service awaits. */
    method Wait()
      modifies this`clock
      ensures old(clock) <= clock
    {
      var d: int := *;
      if d > 0 { clock := clock + d; }
    }

    method SuppressionReason(c: nat, email: string) returns (reason: Option<Reason>, ghost checked: nat)
      modifies this`clock
      ensures old(clock) <= checked <= clock
      ensures reason == Some(AlreadySentInCampaign) <==>
        exists m | m in log :: m.Sent? && m.campaign == Some(c) && m.person == email
      ensures reason.None? <==> forall m | m in log && m.Sent? && m.person == email ::
        m.campaign != Some(c) && cooldown > 0 && m.at + cooldown * DAY < checked
      ensures reason == ReasonAt(log, c, email, cooldown, checked)
    {
      Wait();
      checked := clock;
      if SentInCampaign(log, c, email) { return Some(AlreadySentInCampaign), checked; }
      if Contacted(log, email, cooldown, clock) { return Some(GloballyContacted), checked; }
      return None, checked;
    }

    /** One message to one recipient: `answer` is what Gmail says to it. */
    method SendOne(i: nat, k: nat) returns (answer: Answer, ghost at: nat)
      requires i < |pool| && k < |accounts|
      modifies this`clock, this`pool, this`log, this`accounts, this`accepted
      ensures old(clock) <= at <= clock
      ensures var m := Attempted(old(pool)[i], k, old(accounts)[k].domain, answer.Accepted?, at);
        log == old(log) + [m] && accepted == old(accepted) + SentRows([m])
      ensures pool == old(pool)[i := old(pool)[i].(standing := if answer.Accepted? then Messaged else Undeliverable)]
      ensures accounts == if answer.AuthError? then Disabled(old(accounts), k) else old(accounts)
    {
      Wait();
      answer := *;
      var r := pool[i];
      at := clock;
      if answer.Accepted? {
        var m := Sent(Some(r.campaign), r.email, k, accounts[k].domain, clock);
        pool := pool[i := r.(standing := Messaged)];
        accepted := accepted + [m];
        log := log + [m];
        Wait();
      } else {
        log := log + [Failed(Some(r.campaign), r.email, k, accounts[k].domain)];
        pool := pool[i := r.(standing := Undeliverable)];
        if answer.AuthError? { accounts := Disabled(accounts, k); }
      }
    }

    /** Sends to a recipient found unsuppressed at `checked`, from the mailbox of the domain whose turn it is. */
    method SendFrom(i: nat, d: Domain, boxes: seq<nat>, turn: nat, budget: map<Domain, int>, ghost checked: nat)
      returns (ok: bool, ghost at: nat)
      requires i < |pool| && pool[i].standing.Pending? && Norm(pool[i].email) == pool[i].email && checked <= clock
      requires boxes != [] && forall j | 0 <= j < |boxes| :: boxes[j] < |accounts| && accounts[boxes[j]].domain == d
      requires MailOk(log, accepted, clock, Cap(), cooldown) && Tallied(pool, log)
      requires Room(log, clock, Cap(), budget) && d in budget && budget[d] > 0
      requires ReasonAt(log, pool[i].campaign, pool[i].email, cooldown, checked).None?
      modifies this`clock, this`pool, this`log, this`accounts, this`accepted
      ensures old(clock) <= clock && MailOk(log, accepted, clock, Cap(), cooldown) && Tallied(pool, log)
      ensures Room(log, clock, Cap(), if ok then Spent(budget, d) else budget) && SameMailboxes(old(accounts), accounts)
      ensures var m := Attempted(old(pool)[i], Next(boxes, turn), d, ok, at);
        log == old(log) + [m] && accepted == old(accepted) + SentRows([m])
      ensures pool == old(pool)[i := old(pool)[i].(standing := if ok then Messaged else Undeliverable)]
    {
      ghost var log0, accepted0, pool0, then_ := log, accepted, pool, clock;
      var k := Next(boxes, turn);
      var answer;
      answer, at := SendOne(i, k);
      ok := answer.Accepted?;
      AttemptTallies(pool0, log0, i, if ok then Messaged else Undeliverable, Attempted(pool0[i], k, d, ok, at));
      AttemptKeeps(log0, accepted0, pool0[i], k, d, ok, checked, then_, at, clock, Cap(), cooldown, budget);
    }

    /** The authoritative check at send time: a recipient it suppresses is marked so, any other may be sent to. */
    method Screen(i: nat, ghost budget: map<Domain, int>) returns (reason: Option<Reason>, ghost checked: nat)
      requires Ok() && i < |pool| && pool[i].standing.Pending? && Room(log, clock, Cap(), budget)
      modifies this`clock, this`pool
      ensures MailOk(log, accepted, clock, Cap(), cooldown) && Room(log, clock, Cap(), budget) && Tallied(pool, log)
      ensures old(clock) <= checked <= clock
      ensures pool
        == if reason.Some? then old(pool)[i := old(pool)[i].(standing := Suppressed(reason.value))] else old(pool)
      ensures reason == ReasonAt(log, old(pool)[i].campaign, old(pool)[i].email, cooldown, checked)
    {
      var r := pool[i];
      assert r in pool;
      reason, checked := SuppressionReason(r.campaign, Norm(r.email));
      RoomLater(log, old(clock), clock, Cap(), budget);
      if reason.Some? {
        SkipTallies(pool, log, i, Suppressed(reason.value));
        pool := pool[i := r.(standing := Suppressed(reason.value))];
      }
    }

    /** Sends to a recipient found unsuppressed at `checked`, if there is a domain with budget left. */
    method SendNext(i: nat, strategy: Strategy, domains: seq<Domain>, byDomain: map<Domain, seq<nat>>,
                    budget: map<Domain, int>, turns: map<Domain, nat>, ghost checked: nat)
      returns (outcome: Attempt, left: map<Domain, int>, nextTurns: map<Domain, nat>, ghost at: nat)
      requires i < |pool| && pool[i].standing.Pending? && Norm(pool[i].email) == pool[i].email && checked <= clock
      requires MailOk(log, accepted, clock, Cap(), cooldown) && Tallied(pool, log) && Room(log, clock, Cap(), budget)
      requires Served(accounts, domains, byDomain) && Within(budget, domains)
      requires ReasonAt(log, pool[i].campaign, pool[i].email, cooldown, checked).None?
      modifies this`clock, this`pool, this`log, this`accounts, this`accepted
      ensures old(clock) <= clock && MailOk(log, accepted, clock, Cap(), cooldown) && Room(log, clock, Cap(), left)
      ensures Tallied(pool, log) && SameMailboxes(old(accounts), accounts) && !outcome.Skipped?
      ensures TurnOk(old(Here(budget, turns)), Here(left, nextTurns), i, strategy, domains, byDomain, outcome, at)
    {
      var d := PickDomain(strategy, domains, budget);
      if d.None? { return NoBudget, budget, turns, clock; }
      var ok;
      ok, left, nextTurns, at := SendVia(i, d.value, byDomain, budget, turns, checked);
      return Tried(ok), left, nextTurns, at;
    }

    method SendVia(i: nat, d: Domain, byDomain: map<Domain, seq<nat>>, budget: map<Domain, int>,
                   turns: map<Domain, nat>, ghost checked: nat)
      returns (ok: bool, left: map<Domain, int>, nextTurns: map<Domain, nat>, ghost at: nat)
      requires i < |pool| && pool[i].standing.Pending? && Norm(pool[i].email) == pool[i].email && checked <= clock
      requires d in byDomain && byDomain[d] != []
      requires forall j | 0 <= j < |byDomain[d]| :: byDomain[d][j] < |accounts| && accounts[byDomain[d][j]].domain == d
      requires MailOk(log, accepted, clock, Cap(), cooldown) && Tallied(pool, log)
      requires Room(log, clock, Cap(), budget) && d in budget && budget[d] > 0
      requires ReasonAt(log, pool[i].campaign, pool[i].email, cooldown, checked).None?
      modifies this`clock, this`pool, this`log, this`accounts, this`accepted
      ensures old(clock) <= clock && MailOk(log, accepted, clock, Cap(), cooldown) && Room(log, clock, Cap(), left)
      ensures Tallied(pool, log) && SameMailboxes(old(accounts), accounts)
      ensures SentVia(d, old(Here(budget, turns)), Here(left, nextTurns), i, byDomain, ok, at)
    {
      ghost var before := Here(budget, turns);
      ok, at := SendFrom(i, d, byDomain[d], Turn(turns, d), budget, checked);
      left := if ok then Spent(budget, d) else budget;
      nextTurns := turns[d := Turn(turns, d) + 1];
      WentVia(d, before, pool, log, accepted, i, byDomain, ok, at);
    }

    /** One recipient's turn in a cycle. */
    method TryRecipient(i: nat, strategy: Strategy, domains: seq<Domain>, byDomain: map<Domain, seq<nat>>,
                        budget: map<Domain, int>, turns: map<Domain, nat>)
      returns (outcome: Attempt, left: map<Domain, int>, nextTurns: map<Domain, nat>, ghost checked: nat, ghost at: nat)
      requires Ok() && i < |pool| && pool[i].standing.Pending?
      requires Room(log, clock, Cap(), budget) && Served(accounts, domains, byDomain) && Within(budget, domains)
      modifies this`clock, this`pool, this`log, this`accounts, this`accepted
      ensures old(clock) <= clock && MailOk(log, accepted, clock, Cap(), cooldown) && Room(log, clock, Cap(), left)
      ensures Tallied(pool, log) && SameMailboxes(old(accounts), accounts)
      ensures TurnOk(old(Here(budget, turns)), Here(left, nextTurns), i, strategy, domains, byDomain, outcome, at)
      ensures old(clock) <= checked <= clock && Screened(old(Here(budget, turns)), i, outcome, checked, cooldown)
    {
      var reason;
      reason, checked := Screen(i, budget);
      if reason.Some? { return Skipped(reason.value), budget, turns, checked, clock; }
      outcome, left, nextTurns, at := SendNext(i, strategy, domains, byDomain, budget, turns, checked);
    }

    /** The turn of the next recipient of a cycle that began at `start`. */
    method CycleTurn(c: nat, strategy: Strategy, domains: seq<Domain>, byDomain: map<Domain, seq<nat>>,
                     places: seq<nat>, i: nat, budget: map<Domain, int>, turns: map<Domain, nat>,
                     ghost start: Progress, ghost since: nat, ghost rows: seq<Message>, ghost sent: seq<bool>)
      returns (stop: bool, left: map<Domain, int>, nextTurns: map<Domain, nat>,
               ghost moreRows: seq<Message>, ghost moreSent: seq<bool>)
      requires Ok() && Room(log, clock, Cap(), budget) && Served(accounts, domains, byDomain)
      requires i < |places| && PoolOk(start.pool) && Reached(start.pool, pool, places, i, c)
      requires SoFar(start, Here(budget, turns), rows, sent, c, strategy, domains, byDomain)
      requires since <= clock && AllWarranted(start.pool, pool, log, cooldown, since)
      modifies this`clock, this`pool, this`log, this`accounts, this`accepted
      ensures old(clock) <= clock && Ok() && Room(log, clock, Cap(), left) && SameMailboxes(old(accounts), accounts)
      ensures SoFar(start, Here(left, nextTurns), moreRows, moreSent, c, strategy, domains, byDomain)
      ensures AllWarranted(start.pool, pool, log, cooldown, since)
      ensures if stop then (forall d | d in left :: left[d] <= 0) && pool == old(pool) && left == budget
              else Reached(start.pool, pool, places, i + 1, c)
    {
      ghost var before := Here(budget, turns);
      var outcome;
      ghost var checked, at;
      outcome, left, nextTurns, checked, at := TryRecipient(places[i], strategy, domains, byDomain, budget, turns);
      ghost var after := Here(left, nextTurns);
      stop := outcome.NoBudget?;
      ReachedNext(start.pool, before, after, places, i, c, strategy, domains, byDomain, outcome, at);
      moreRows, moreSent :=
        SoFarTurn(start, before, after, rows, sent, c, strategy, domains, byDomain, places[i], outcome, at);
      WarrantedNext(start.pool, before, after, places[i], strategy, domains, byDomain, outcome, at, checked, cooldown,
                    since);
      MovedPool(start.pool, pool, c);
    }

    /** Goes through the cycle's recipients until the budget is used up. */
    method RunCycle(c: nat, strategy: Strategy, domains: seq<Domain>, byDomain: map<Domain, seq<nat>>,
                    allowed: map<Domain, int>, places: seq<nat>, ghost since: nat)
      returns (left: map<Domain, int>, turns: map<Domain, nat>, ghost sent: seq<bool>, ghost rows: seq<Message>)
      requires Ok() && Room(log, clock, Cap(), allowed) && Within(allowed, domains)
      requires Served(accounts, domains, byDomain) && Waiting(pool, places, c) && since <= clock
      modifies this`clock, this`pool, this`log, this`accounts, this`accepted
      ensures old(clock) <= clock && Ok() && Moved(old(pool), pool, c) && Room(log, clock, Cap(), left)
      ensures SoFar(old(Here(allowed, map[])), Here(left, turns), rows, sent, c, strategy, domains, byDomain)
      ensures AllWarranted(old(pool), pool, log, cooldown, since)
      ensures places != [] && Total(domains, allowed) > 0 ==> pool[places[0]] != old(pool)[places[0]]
      ensures (forall d | d in left :: left[d] <= 0) || Reached(old(pool), pool, places, |places|, c)
    {
      left, turns, sent, rows := allowed, map[], [], [];
      ghost var start := Here(allowed, map[]);
      for i := 0 to |places|
        invariant old(clock) <= clock && Ok() && Room(log, clock, Cap(), left) && SameMailboxes(old(accounts), accounts)
        invariant Reached(start.pool, pool, places, i, c) && AllWarranted(start.pool, pool, log, cooldown, since)
        invariant SoFar(start, Here(left, turns), rows, sent, c, strategy, domains, byDomain)
        invariant i == 0 ==> left == allowed
      {
        TotalIsPositive(domains, left);
        if Total(domains, left) <= 0 {
          NothingLeft(domains, left);
          break;
        }
        var stop;
        stop, left, turns, rows, sent :=
          CycleTurn(c, strategy, domains, byDomain, places, i, left, turns, start, since, rows, sent);
        if stop { break; }
      }
    }

    /** The budget of a cycle, drawn up at `at`; `roomy` is any domain that had room under its cap before. */
    method DrawUp(strategy: Strategy, domains: seq<Domain>, ghost roomy: Domain)
      returns (budget: map<Domain, int>, ghost at: nat)
      requires Ok() && Ascending(domains)
      modifies this`clock
      ensures old(clock) <= at <= clock && Ok() && Room(log, clock, Cap(), budget)
      ensures BudgetFor(strategy, domains, log, Cap(), perCycle, at, budget)
      ensures roomy in domains && Left(log, Cap(), roomy, old(clock)) > 0 ==> budget != map[]
    {
      Wait();
      at := clock;
      budget := Budget(strategy, domains, log, Cap(), perCycle, clock);
      RoomAtFirst(log, clock, Cap(), budget);
      StillRoom(log, Cap(), roomy, old(clock), clock);
      Wait();
      RoomLater(log, at, clock, Cap(), budget);
      MailLater(log, accepted, at, clock, Cap(), cooldown);
    }

    /** The paced part of a tick. */
    method Pace(c: nat, strategy: Strategy, domains: seq<Domain>, byDomain: map<Domain, seq<nat>>, ghost roomy: Domain)
      returns (ghost y: Cycle)
      requires Ok() && Served(accounts, domains, byDomain) && Ascending(domains)
      modifies this`clock, this`pool, this`log, this`accounts, this`accepted
      ensures Ok() && Moved(old(pool), pool, c) && y.domains == domains && y.groups == byDomain
      ensures old(clock) <= y.at <= clock
      ensures BudgetFor(strategy, domains, old(log), Cap(), perCycle, y.at, y.allowed)
      ensures Paced(y, c, strategy, old(View()), View()) && AllWarranted(old(pool), pool, log, cooldown, old(clock))
      ensures Thorough(y, old(pool), pool, c)
      ensures perCycle > 0 && roomy in domains && Left(old(log), Cap(), roomy, old(clock)) > 0 ==>
        FewerPending(old(pool), pool, c)
    {
      var budget, at := DrawUp(strategy, domains, roomy);
      y := Cycle(at, domains, byDomain, budget, budget, []);
      if CountPending(pool, c) > 0 && budget != map[] {
        y := PaceWith(c, strategy, domains, byDomain, budget, at, old(clock));
      }
    }

    method PaceWith(c: nat, strategy: Strategy, domains: seq<Domain>, byDomain: map<Domain, seq<nat>>,
                    budget: map<Domain, int>, ghost at: nat, ghost since: nat)
      returns (ghost y: Cycle)
      requires Ok() && Served(accounts, domains, byDomain) && Room(log, clock, Cap(), budget) && since <= clock
      requires Within(budget, domains) && CountPending(pool, c) > 0 && budget != map[]
      modifies this`clock, this`pool, this`log, this`accounts, this`accepted
      ensures old(clock) <= clock && Ok() && Moved(old(pool), pool, c)
      ensures AllWarranted(old(pool), pool, log, cooldown, since)
      ensures y == Cycle(at, domains, byDomain, budget, y.left, y.rows) && Paced(y, c, strategy, old(View()), View())
      ensures Thorough(y, old(pool), pool, c)
      ensures (forall d | d in budget :: budget[d] > 0) ==> FewerPending(old(pool), pool, c)
    {
      TotalIsPositive(domains, budget);
      var places := PendingOf(pool, c, Total(domains, budget) * 4 + 20);
      ghost var sent, rows;
      var left, turns;
      left, turns, sent, rows := RunCycle(c, strategy, domains, byDomain, budget, places, since);
      y := Cycle(at, domains, byDomain, budget, left, rows);
      CyclePaced(y, c, strategy, old(View()), View(), old(Here(budget, map[])), Here(left, turns), sent);
      if forall d | d in budget :: budget[d] > 0 { BudgetIsPositive(domains, budget); }
      MovedCount(old(pool), pool, c, places[0]);
      if Reached(old(pool), pool, places, |places|, c) { DealtWith(old(pool), pool, c, places); }
    }

    /** One pacing cycle of one campaign. */
    method Tick(c: nat) returns (ghost y: Cycle)
      requires Ok()
      modifies this
      ensures Ok() && Moved(old(pool), pool, c) && AllWarranted(old(pool), pool, log, cooldown, old(clock))
      ensures if IsRunning(old(campaigns), c)
        then CycleOk(y, c, old(campaigns)[c], old(View()), View(), Cap(), perCycle) && Thorough(y, old(pool), pool, c)
        else View() == old(View())
      ensures perCycle > 0 && IsRunning(old(campaigns), c)
        && CanSend(old(campaigns)[c].owner, old(accounts), old(log), Cap(), old(clock))
        ==> FewerPending(old(pool), pool, c)
      ensures var done := IsRunning(old(campaigns), c) && HasMailbox(old(accounts), old(campaigns)[c].owner)
                && CountPending(pool, c) == 0;
        campaigns == if done then old(campaigns)[c := old(campaigns)[c].(status := Completed)] else old(campaigns)
    {
      y := Cycle(clock, [], map[], map[], map[], []);
      if c !in campaigns || !campaigns[c].status.Running? { return; }
      var campaign, none := campaigns[c], false;
      none, y := TickRunning(c, campaign);
      if !none && CountPending(pool, c) == 0 { campaigns := campaigns[c := campaign.(status := Completed)]; }
    }

    /** The cycle itself: `none` says that the owner has no mailbox to send from. */
    method TickRunning(c: nat, campaign: Campaign) returns (none: bool, ghost y: Cycle)
      requires Ok()
      modifies this`clock, this`pool, this`log, this`accounts, this`accepted
      ensures Ok() && Moved(old(pool), pool, c) && AllWarranted(old(pool), pool, log, cooldown, old(clock))
      ensures CycleOk(y, c, campaign, old(View()), View(), Cap(), perCycle) && Thorough(y, old(pool), pool, c)
      ensures perCycle > 0 && CanSend(campaign.owner, old(accounts), old(log), Cap(), old(clock)) ==>
        FewerPending(old(pool), pool, c)
      ensures none <==> !HasMailbox(old(accounts), campaign.owner)
    {
      var byDomain, domains;
      ghost var roomy;
      byDomain, domains, roomy := SendingDomains(accounts, campaign.owner, log, Cap(), clock);
      if domains == [] {
        y := NoCycle(c, campaign, View(), byDomain, Cap(), perCycle);
        return true, y;
      }
      none := false;
      y := Pace(c, campaign.strategy, domains, byDomain, roomy);
    }

    /** Ticks every running campaign, one after another. */
    method TickAll()
      requires Ok()
      modifies this
      ensures Ok() && Followed(old(View()), View()) && Settles(old(pool), pool)
    {
      var ids: set<nat> := set c | c in campaigns && campaigns[c].status.Running?;
      while ids != {}
        invariant Ok() && Followed(old(View()), View()) && Settles(old(pool), pool)
        decreases |ids|
      {
        var c: nat :| c in ids;
        ids := ids - {c};
        ghost var before := View();
        TickOn(c);
        FollowedOn(old(View()), before, View());
      }
    }

    method TickOn(c: nat)
      requires Ok()
      modifies this
      ensures Ok() && Followed(old(View()), View()) && Moved(old(pool), pool, c)
    {
      ghost var y := Tick(c);
      FollowedRows(old(View()), View(), if IsRunning(old(campaigns), c) then y.rows else []);
    }

    // ----- one-off sends -----

    /** The checks of a one-off send: another spelling of a contacted address does not help. */
    method EnforceDirectSend(d: Domain, to: seq<string>, pauses: Pauses)
      returns (v: Verdict, ghost checked: nat, ghost counted: nat)
      requires Ok()
      modifies this`clock
      ensures old(clock) <= checked <= counted <= clock <= old(clock) + pauses.check + pauses.count && Ok()
      ensures Decided(v, log, Addresses(to), d, Cap(), cooldown, checked, counted)
      ensures v.AlreadyContacted? <==> ReachedBefore(log, to, cooldown, checked)
      ensures v.Allowed? ==> Addresses(to) == [] || Room(log, clock, Cap(), map[d := |Addresses(to)|])
    {
      v, checked, counted := CheckPeople(d, Addresses(to), pauses);
      AnySpelling(log, to, cooldown, checked);
    }

    method CheckPeople(d: Domain, people: seq<string>, pauses: Pauses)
      returns (v: Verdict, ghost checked: nat, ghost counted: nat)
      requires Ok()
      modifies this`clock
      ensures old(clock) <= checked <= counted <= clock <= old(clock) + pauses.check + pauses.count && Ok()
      ensures Decided(v, log, people, d, Cap(), cooldown, checked, counted)
      ensures v.Allowed? ==> people == [] || Room(log, clock, Cap(), map[d := |people|])
    {
      checked, counted := clock, clock;
      if people == [] { return Allowed, checked, counted; }
      clock := clock + pauses.check;
      checked, counted := clock, clock;
      if !Uncontacted(log, people, cooldown, clock) { return AlreadyContacted, checked, counted; }
      clock := clock + pauses.count;
      counted := clock;
      if SentSince(log, d, DayStart(clock)) + |people| > Cap() { return CapReached, checked, counted; }
      RoomAtFirst(log, clock, Cap(), map[d := |people|]);
      return Allowed, checked, counted;
    }

    /** Logs an accepted send: `then_` is when it was allowed. */
    method RecordDirectSend(k: nat, d: Domain, people: seq<string>, ghost checked: nat, ghost then_: nat)
      requires LedgerOk(log, then_, Cap(), cooldown) && checked <= then_ <= clock && Tallied(pool, log)
      requires Uncontacted(log, people, cooldown, checked)
      requires forall i, j | 0 <= i < j < |people| :: people[i] != people[j]
      requires people == [] || Room(log, then_, Cap(), map[d := |people|])
      modifies this`log
      ensures LedgerOk(log, clock, Cap(), cooldown) && Tallied(pool, log)
      ensures log == old(log) + RowsFor(people, k, d, clock)
    {
      AllFit(log, people, k, d, then_, clock, checked, Cap(), cooldown);
      RowsForTallies(pool, log, people, k, d, clock);
      var now := clock;
      for i := 0 to |people|
        invariant log == old(log) + RowsFor(people[..i], k, d, now)
      {
        TakeMore(people, i);
        Grouping(old(log), RowsFor(people[..i], k, d, now), [Sent(None, people[i], k, d, now)]);
        log := log + [Sent(None, people[i], k, d, now)];
      }
      assert people[..|people|] == people;
    }

    /** A one-off send goes through the same suppression and the same cap as a campaign's. */
    method DirectSend(q: Request) returns (r: Direct, ghost w: Instants)
      requires Ok() && q.account < |accounts|
      modifies this`clock, this`log, this`accounts, this`accepted
      ensures Ok() && SendOk(old(View()), View(), q, r, w, Cap(), cooldown)
    {
      var v, checked, counted := EnforceDirectSend(accounts[q.account].domain, q.to, q.pauses);
      w := Instants(checked, counted, clock);
      if !v.Allowed? { return Refused(v), w; }
      r, w := SendAllowed(q, checked, counted);
    }

    /** The send itself. */
    method SendAllowed(q: Request, ghost checked: nat, ghost counted: nat) returns (r: Direct, ghost w: Instants)
      requires Ok() && q.account < |accounts| && checked <= counted <= clock
      requires Uncontacted(log, Addresses(q.to), cooldown, checked)
      requires Addresses(q.to) == [] || Room(log, clock, Cap(), map[accounts[q.account].domain := |Addresses(q.to)|])
      modifies this`clock, this`log, this`accounts, this`accepted
      ensures Ok() && !r.Refused? && w == Instants(checked, counted, w.sent)
      ensures Went(old(View()), View(), q, r, w.sent)
      ensures clock <= old(clock) + q.pauses.send + q.pauses.read + q.pauses.record
    {
      var k := q.account;
      ghost var then_ := clock;
      clock := clock + q.pauses.send;
      w := Instants(checked, counted, clock);
      MailLater(log, accepted, then_, clock, Cap(), cooldown);
      if !q.answer.Accepted? {
        if q.answer.AuthError? { accounts := Disabled(accounts, k); }
        return ProviderError, w;
      }
      r := ReadBack(q, checked, then_);
    }

    /** After Gmail has accepted the mail: its copy is read back, and only then is it logged. */
    method ReadBack(q: Request, ghost checked: nat, ghost then_: nat) returns (r: Direct)
      requires Ok() && q.account < |accounts| && checked <= then_ <= clock && q.answer.Accepted?
      requires MailOk(log, accepted, then_, Cap(), cooldown) && Uncontacted(log, Addresses(q.to), cooldown, checked)
      requires Addresses(q.to) == [] || Room(log, then_, Cap(), map[accounts[q.account].domain := |Addresses(q.to)|])
      modifies this`clock, this`log, this`accounts, this`accepted
      ensures Ok() && Went(old(View()), View(), q, r, old(clock))
      ensures clock <= old(clock) + q.pauses.read + q.pauses.record
    {
      var k, d, people := q.account, accounts[q.account].domain, Addresses(q.to);
      ghost var sent, accepted0 := clock, accepted;
      accepted := accepted + RowsFor(people, k, d, sent);
      clock := clock + q.pauses.read;
      if !q.copy.Accepted? {
        MailLater(log, accepted0, sent, clock, Cap(), cooldown);
        NotRecorded(log, accepted0, people, k, d, sent, clock, Cap(), cooldown);
        if q.copy.AuthError? { accounts := Disabled(accounts, k); }
        return Unlogged;
      }
      clock := clock + q.pauses.record;
      Recorded(log, accepted0, people, k, d, then_, sent, clock, checked, Cap(), cooldown);
      RecordDirectSend(k, d, people, checked, then_);
      return Delivered;
    }

    // ----- merging sources -----

    method MergeRecipients(c: nat, items: seq<string>) returns (n: Counts, ghost checked: nat)
      requires Ok()
      modifies this`clock, this`pool
      ensures Ok() && old(pool) <= pool && old(clock) <= checked <= clock
      ensures n.submitted == |Usables(items)| == n.added + n.duplicate + n.suppressed
      ensures |pool| == |old(pool)| + n.added + n.suppressed
      ensures CountPending(pool, c) == CountPending(old(pool), c) + n.added
      ensures PoolEmails(pool, c) == PoolEmails(old(pool), c) + Members(Usables(items))
      ensures forall t | t in items && HasAt(t) :: exists r :: r in pool && r.campaign == c && SameAddress(r.email, t)
      ensures forall r | r in pool[|old(pool)|..] ::
        r == Recipient(c, r.email, FirstStanding(log, c, r.email, cooldown, checked))
    {
      Wait();
      var batch := Normalize(items);
      Wait();
      checked := clock;
      var sentInCampaign, contacted := SentInCampaignSet(log, c, batch), ContactedSet(log, batch, cooldown, clock);
      var merged, counts := Merge(pool, c, batch, sentInCampaign, contacted);
      forall r | r in merged[|pool|..]
        ensures r == Recipient(c, r.email, FirstStanding(log, c, r.email, cooldown, checked))
      {
        BatchStanding(log, c, batch, cooldown, checked, r.email);
      }
      forall c: nat ensures CountMessaged(merged, c) == CountMessaged(pool, c) { NewcomersAreUnsent(pool, merged, c); }
      EveryItemIsIn(merged, c, items);
      pool, n := merged, counts;
    }
  }

  /** `Change` stands for anything users do to campaigns and mailboxes: create, start, pause, cancel, connect. */
  datatype Operation =
    | Pacing
    | PaceOne(campaign: nat)
    | OneOff(request: Request)
    | Source(campaign: nat, items: seq<string>)
    | Change(campaigns: map<nat, Campaign>, accounts: seq<Account>)
    | Idle

  /** How an operation came out; of interest for one-off sends. */
  datatype Outcome = Outcome(result: Direct, at: Instants)

  predicate Sends(b: Books, op: Operation) { op.OneOff? && op.request.account < |b.accounts| }

  ghost predicate StepOk(b: Books, a: Books, op: Operation, o: Outcome, cap: int, cooldown: nat) {
    if Sends(b, op) then SendOk(b, a, op.request, o.result, o.at, cap, cooldown) else Followed(b, a)
  }

  /** The states the books went through in a run, and how its operations came out. */
  ghost predicate Traced(trace: seq<Books>, run: seq<Operation>, out: seq<Outcome>, cap: int, cooldown: nat) {
    && |trace| == |run| + 1 && |out| == |run|
    && forall i | 0 <= i < |run| :: StepOk(trace[i], trace[i + 1], run[i], out[i], cap, cooldown)
  }

  /** A one-off send that was allowed and accepted, with a copy that could not be read back. */
  predicate Escapes(b: Books, op: Operation, o: Outcome) { Sends(b, op) && Lost(op.request, o.result) }

  predicate NoneEscapes(trace: seq<Books>, run: seq<Operation>, out: seq<Outcome>)
    requires |trace| == |run| + 1 && |out| == |run|
  {
    forall i | 0 <= i < |run| :: !Escapes(trace[i], run[i], out[i])
  }

  lemma TracedSnoc(trace: seq<Books>, run: seq<Operation>, out: seq<Outcome>, a: Books, op: Operation, o: Outcome,
                   cap: int, cooldown: nat)
    requires Traced(trace, run, out, cap, cooldown) && StepOk(trace[|run|], a, op, o, cap, cooldown)
    ensures Traced(trace + [a], run + [op], out + [o], cap, cooldown)
    ensures NoneEscapes(trace + [a], run + [op], out + [o]) <==>
      NoneEscapes(trace, run, out) && !Escapes(trace[|run|], op, o)
    ensures Unknown(a) == Unknown(trace[|run|])
      + if Escapes(trace[|run|], op, o) then |Addresses(op.request.to)| else 0
  {
    var trace', run', out' := trace + [a], run + [op], out + [o];
    assert run'[|run|] == op;
    forall i | 0 <= i < |run| ensures Escapes(trace'[i], run'[i], out'[i]) == Escapes(trace[i], run[i], out[i]) {}
    if Sends(trace[|run|], op) {
      SendKnows(trace[|run|], a, op.request, o.result, o.at, cap, cooldown);
    } else {
      FollowedKnows(trace[|run|], a);
    }
  }

  /** Any serialized run of these keeps the ledger within its limits and in step with the pool. Accepted mail stays what
      the log says was sent, and so within the same limits, if and only if no one-off send escapes. */
  method Drive(e: Engine, run: seq<Operation>) returns (ghost trace: seq<Books>, ghost out: seq<Outcome>)
    requires e.Ok()
    modifies e
    ensures e.Ok() && old(e.log) <= e.log && Settles(old(e.pool), e.pool)
    ensures Traced(trace, run, out, e.Cap(), e.cooldown) && trace[0] == old(e.View()) && trace[|run|] == e.View()
    ensures Matched(e.accepted, e.log) <==> Matched(old(e.accepted), old(e.log)) && NoneEscapes(trace, run, out)
    ensures LimitsKept(e.log, e.capRow, e.capDefault, e.cooldown)
    ensures Matched(e.accepted, e.log) ==> LimitsKept(e.accepted, e.capRow, e.capDefault, e.cooldown)
  {
    trace, out := [e.View()], [];
    KnownIsMatched(e.View(), e.Cap(), e.cooldown);
    for i := 0 to |run|
      invariant e.Ok() && old(e.log) <= e.log && Settles(old(e.pool), e.pool)
      invariant Traced(trace, run[..i], out, e.Cap(), e.cooldown) && trace[0] == old(e.View()) && trace[i] == e.View()
      invariant Unknown(e.View()) == 0 <==> Unknown(old(e.View())) == 0 && NoneEscapes(trace, run[..i], out)
    {
      var o := Do(e, run[i]);
      TracedSnoc(trace, run[..i], out, e.View(), run[i], o, e.Cap(), e.cooldown);
      KnownIsMatched(trace[i], e.Cap(), e.cooldown);
      TakeMore(run, i);
      trace, out := trace + [e.View()], out + [o];
    }
    KnownIsMatched(e.View(), e.Cap(), e.cooldown);
    e.AllLimitsKept();
    assert run[..|run|] == run;
  }

  /** One operation of a run. */
  method Do(e: Engine, op: Operation) returns (ghost o: Outcome)
    requires e.Ok()
    modifies e
    ensures e.Ok() && old(e.log) <= e.log && Settles(old(e.pool), e.pool)
    ensures StepOk(old(e.View()), e.View(), op, o, e.Cap(), e.cooldown)
  {
    o := Outcome(ProviderError, Instants(e.clock, e.clock, e.clock));
    FollowedRows(e.View(), e.View(), []);
    match op
    case Pacing => e.TickAll();
    case PaceOne(c) => e.TickOn(c);
    case OneOff(q) =>
      if q.account < |e.accounts| {
        var r, w := e.DirectSend(q);
        o := Outcome(r, w);
      }
    case Source(c, items) => var _, _ := e.MergeRecipients(c, items);
    case Change(campaigns, accounts) => e.campaigns, e.accounts := campaigns, accounts;
    case Idle => e.Wait();
  }

  // ----- mail that escapes -----

  /** The same message `n` times. */
  predicate Copies(mail: seq<Message>, m: Message, n: nat) { |mail| == n && forall i | 0 <= i < n :: mail[i] == m }

  lemma CopiesMore(mail: seq<Message>, m: Message, n: nat)
    requires Copies(mail, m, n)
    ensures Copies(mail + [m], m, n + 1)
  {}

  lemma {:induction false} CopiesOnOneDay(mail: seq<Message>, m: Message, n: nat)
    requires m.Sent? && Copies(mail, m, n)
    ensures SentOn(mail, m.domain, m.at / DAY) == n
  {
    if n > 0 { CopiesOnOneDay(mail[..n - 1], m, n - 1); }
  }

  /** Copies of one message are beyond any cap they outnumber and, if there are two, beyond any cooldown. */
  lemma CopiesEscape(mail: seq<Message>, m: Message, n: nat, cap: int, cooldown: nat)
    requires m.Sent? && Copies(mail, m, n) && cap > 0
    ensures SentOn(mail, m.domain, m.at / DAY) == n && (n > cap ==> !Capped(mail, cap))
    ensures n > 1 ==> !Spaced(mail, cooldown)
  {
    CopiesOnOneDay(mail, m, n);
    if n > 1 { assert !Apart(mail[0], mail[1], cooldown); }
  }

  lemma OneAddress(person: string)
    requires Norm(person) != ""
    ensures Addresses([person]) == [Norm(person)]
  {
    assert [person][..0] == [] && Addresses([]) == [];
  }

  /** A message to somebody the log does not know, sent at once, with a copy that cannot be read back. */
  function Unread(person: string): Request { Request(0, [person], Accepted, OtherError, Pauses(0, 0, 0, 0, 0)) }

  lemma UnreadGoes(b: Books, a: Books, person: string, r: Direct, w: Instants, cap: int, cooldown: nat)
    requires b.log == [] && b.accounts != [] && b.accounts[0].domain == 0 && Norm(person) != "" && cap > 0
    requires SendOk(b, a, Unread(person), r, w, cap, cooldown)
    ensures a == Books(b.clock, [], b.accepted + [Sent(None, Norm(person), 0, 0, b.clock)], b.accounts)
  {
    OneAddress(person);
    assert r == Unlogged && w.sent == b.clock;
    assert RowsFor([Norm(person)], 0, 0, b.clock) == [Sent(None, Norm(person), 0, 0, b.clock)];
  }

  /** A run of any number of one-off sends to one person at one instant: all are accepted, whatever the cap and the
      cooldown, and the log stays empty. */
  method ManyInADay(person: string, n: nat, cap: int, cooldown: nat, now: nat) returns (e: Engine)
    requires Norm(person) != "" && cap > 0
    ensures fresh(e) && e.Ok() && e.Cap() == cap && e.cooldown == cooldown && e.clock == now && e.log == []
    ensures Copies(e.accepted, Sent(None, Norm(person), 0, 0, now), n)
    ensures SentOn(e.accepted, 0, now / DAY) == n && (n > cap ==> !Capped(e.accepted, cap))
    ensures n > 1 ==> !Spaced(e.accepted, cooldown)
  {
    e := new Engine(None, cap, 1, cooldown, now);
    e.accounts := [Account("", 0, true)];
    ghost var m := Sent(None, Norm(person), 0, 0, now);
    for i := 0 to n
      invariant e.Ok() && e.log == [] && e.clock == now && e.accounts == [Account("", 0, true)]
      invariant Copies(e.accepted, m, i)
    {
      ghost var before := e.View();
      var r, w := e.DirectSend(Unread(person));
      UnreadGoes(before, e.View(), person, r, w, cap, cooldown);
      CopiesMore(before.accepted, m, i);
    }
    CopiesEscape(e.accepted, m, n, cap, cooldown);
  }

  method Normalize(items: seq<string>) returns (normalized: seq<string>)
    ensures normalized == Usables(items)
  {
    normalized := [];
    for i := 0 to |items|
      invariant normalized == Usables(items[..i])
    {
      assert items[..i + 1][..i] == items[..i];
      var email := Norm(items[i]);
      if Usable(email) { normalized := normalized + [email]; }
    }
    assert items[..|items|] == items;
  }
}
