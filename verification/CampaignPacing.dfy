/** How one pacing cycle divides its sends among an owner's domains. */
module CampaignPacing {
  import opened CampaignLedger
  import opened Options

  datatype Strategy = Balanced | Sequential

  function Left(log: seq<Message>, cap: int, d: Domain, now: nat): int { cap - SentSince(log, d, DayStart(now)) }

  /** What is left for a domain is the cap less everything sent from it today. */
  lemma LeftToday(log: seq<Message>, cap: int, d: Domain, now: nat)
    requires Past(log, now)
    ensures Left(log, cap, d, now) == cap - |SentPlaces(log, d, now / DAY)|
  {
    SinceIsToday(log, d, now);
    SentOnCounts(log, d, now / DAY);
  }

  function Share(budget: map<Domain, int>, d: Domain): int { if d in budget then budget[d] else 0 }

  function Total(domains: seq<Domain>, budget: map<Domain, int>): int {
    if domains == [] then 0 else Share(budget, domains[0]) + Total(domains[1..], budget)
  }

  predicate Distinct(domains: seq<Domain>) { forall i, j | 0 <= i < j < |domains| :: domains[i] != domains[j] }

  /** Nothing is budgeted for a domain while an earlier one still has room. */
  predicate OnlyFirst(domains: seq<Domain>, log: seq<Message>, cap: int, now: nat, budget: map<Domain, int>) {
    forall i, j | 0 <= i < j < |domains| && Left(log, cap, domains[i], now) > 0 :: domains[j] !in budget
  }

  /** Sends allowed in one cycle: as many as the day has left, up to the cycle limit, for each domain with room or only
      for the first that has any. */
  predicate BudgetFor(strategy: Strategy, domains: seq<Domain>, log: seq<Message>, cap: int, perCycle: nat, now: nat,
                      budget: map<Domain, int>) {
    && (forall d | d in budget :: d in domains && Left(log, cap, d, now) > 0)
    && (forall d | d in budget ::
          budget[d] == if Left(log, cap, d, now) < perCycle then Left(log, cap, d, now) else perCycle)
    && (strategy.Balanced? ==> forall d | d in domains && Left(log, cap, d, now) > 0 :: d in budget)
    && (strategy.Sequential? ==> OnlyFirst(domains, log, cap, now, budget))
    && (budget == map[] ==> forall d | d in domains :: Left(log, cap, d, now) <= 0)
  }

  predicate Ascending(domains: seq<Domain>) { forall i, j | 0 <= i < j < |domains| :: domains[i] < domains[j] }

  method Budget(strategy: Strategy, domains: seq<Domain>, log: seq<Message>, cap: int, perCycle: nat, now: nat)
    returns (budget: map<Domain, int>)
    requires Distinct(domains)
    ensures BudgetFor(strategy, domains, log, cap, perCycle, now, budget)
  {
    budget := map[];
    if strategy.Sequential? {
      for i := 0 to |domains|
        invariant budget == map[] && forall j | 0 <= j < i :: Left(log, cap, domains[j], now) <= 0
      {
        var left := Left(log, cap, domains[i], now);
        if left > 0 {
          budget := map[domains[i] := if left < perCycle then left else perCycle];
          break;
        }
      }
    } else {
      for i := 0 to |domains|
        invariant forall d | d in budget :: d in domains && Left(log, cap, d, now) > 0
        invariant forall d | d in budget ::
          budget[d] == if Left(log, cap, d, now) < perCycle then Left(log, cap, d, now) else perCycle
        invariant forall j | 0 <= j < i && Left(log, cap, domains[j], now) > 0 :: domains[j] in budget
      {
        var left := Left(log, cap, domains[i], now);
        if left > 0 { budget := budget[domains[i] := if left < perCycle then left else perCycle]; }
      }
    }
  }

  /** The first domain with budget left, or in balanced mode the first of those with the most. */
  function PickDomain(strategy: Strategy, domains: seq<Domain>, budget: map<Domain, int>): (r: Option<Domain>)
    ensures r.None? <==> forall d | d in domains :: Share(budget, d) <= 0
    ensures r.Some? ==> r.value in domains && r.value in budget && budget[r.value] > 0
    ensures r.Some? && strategy.Balanced? ==> forall d | d in domains :: Share(budget, d) <= budget[r.value]
  {
    if domains == [] then None
    else
      var rest := PickDomain(strategy, domains[1..], budget);
      if Share(budget, domains[0]) <= 0 then rest
      else if rest.None? || strategy.Sequential? || budget[domains[0]] >= budget[rest.value] then Some(domains[0])
      else rest
  }

  lemma {:induction false} PicksFirst(strategy: Strategy, domains: seq<Domain>, budget: map<Domain, int>, i: nat)
    requires i < |domains| && domains[i] !in domains[..i] && PickDomain(strategy, domains, budget) == Some(domains[i])
    ensures strategy.Sequential? ==> forall j | 0 <= j < i :: Share(budget, domains[j]) <= 0
    ensures strategy.Balanced? ==> forall j | 0 <= j < i :: Share(budget, domains[j]) < budget[domains[i]]
  {
    if i > 0 {
      assert domains[0] in domains[..i] && domains[1..][i - 1] == domains[i];
      forall k | 0 <= k < i - 1 ensures domains[1..][k] != domains[i] { assert domains[k + 1] in domains[..i]; }
      PicksFirst(strategy, domains[1..], budget, i - 1);
      forall j | 0 < j < i ensures domains[j] == domains[1..][j - 1] {}
    }
  }

  function Spent(budget: map<Domain, int>, d: Domain): map<Domain, int>
    requires d in budget
  {
    budget[d := budget[d] - 1]
  }

  /** A used domain never falls more than one behind any other. */
  predicate Even(start: map<Domain, int>, budget: map<Domain, int>) {
    && budget.Keys == start.Keys
    && forall d, e | d in start && e in start && budget[d] < start[d] :: budget[e] <= budget[d] + 1
  }

  lemma PickKeepsEven(domains: seq<Domain>, start: map<Domain, int>, budget: map<Domain, int>)
    requires Even(start, budget) && forall d | d in start :: d in domains
    ensures var p := PickDomain(Balanced, domains, budget); p.Some? ==> Even(start, Spent(budget, p.value))
  {
    var p := PickDomain(Balanced, domains, budget);
    if p.Some? {
      forall e | e in budget ensures budget[e] <= budget[p.value] { assert Share(budget, e) <= budget[p.value]; }
    }
  }

  /** The budget after a series of attempts, each of which picks a domain and spends from it if it goes through. */
  function AfterAttempts(strategy: Strategy, domains: seq<Domain>, budget: map<Domain, int>, sent: seq<bool>)
    : map<Domain, int>
    decreases |sent|
  {
    if sent == [] then budget
    else
      var p := PickDomain(strategy, domains, budget);
      if p.None? then budget
      else AfterAttempts(strategy, domains, if sent[0] then Spent(budget, p.value) else budget, sent[1..])
  }

  lemma {:induction false} AttemptsSnoc(strategy: Strategy, domains: seq<Domain>, budget: map<Domain, int>,
                                        sent: seq<bool>, last: bool)
    ensures var b := AfterAttempts(strategy, domains, budget, sent);
      var p := PickDomain(strategy, domains, b);
      AfterAttempts(strategy, domains, budget, sent + [last]) == if p.Some? && last then Spent(b, p.value) else b
    decreases |sent|
  {
    var p := PickDomain(strategy, domains, budget);
    if sent == [] {
      assert (sent + [last])[1..] == [];
    } else if p.Some? {
      assert (sent + [last])[1..] == sent[1..] + [last];
      AttemptsSnoc(strategy, domains, if sent[0] then Spent(budget, p.value) else budget, sent[1..], last);
    }
  }

  /** After any series of attempts a balanced cycle has used its domains evenly. */
  lemma {:induction false} BalancedStaysEven(domains: seq<Domain>, start: map<Domain, int>, budget: map<Domain, int>,
                                            sent: seq<bool>)
    requires Even(start, budget) && forall d | d in start :: d in domains
    ensures Even(start, AfterAttempts(Balanced, domains, budget, sent))
    decreases |sent|
  {
    if sent != [] {
      var p := PickDomain(Balanced, domains, budget);
      PickKeepsEven(domains, start, budget);
      if p.Some? { BalancedStaysEven(domains, start, if sent[0] then Spent(budget, p.value) else budget, sent[1..]); }
    }
  }

  lemma {:induction false} TotalIsPositive(domains: seq<Domain>, budget: map<Domain, int>)
    requires forall d | d in budget :: budget[d] >= 0
    ensures Total(domains, budget) >= 0
    ensures Total(domains, budget) > 0 <==> exists d | d in domains :: Share(budget, d) > 0
  {
    if domains != [] {
      TotalIsPositive(domains[1..], budget);
      assert domains == [domains[0]] + domains[1..];
    }
  }
}
