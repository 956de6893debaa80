/** The log of sent mail that every campaign and every one-off send shares, and the limits it has to respect. */
module CampaignLedger {
  import opened Options

  /** Microseconds. */
  const DAY := 86_400_000_000

  /** A sending domain, standing for the place of its name in sorted order. */
  type Domain = nat

  /** `campaign` is None for a one-off send; `account` is the mailbox used. */
  datatype Message =
    | Sent(campaign: Option<nat>, person: string, account: nat, domain: Domain, at: nat)
    | Failed(campaign: Option<nat>, person: string, account: nat, domain: Domain)

  // ----- the per-domain daily cap -----

  function SentOn(log: seq<Message>, d: Domain, day: nat): nat {
    if log == [] then 0
    else
      var m := log[|log| - 1];
      SentOn(log[..|log| - 1], d, day) + if m.Sent? && m.domain == d && m.at / DAY == day then 1 else 0
  }

  /** What the budget query counts: rows of the domain sent at or after `t`. */
  function SentSince(log: seq<Message>, d: Domain, t: nat): nat {
    if log == [] then 0
    else
      var m := log[|log| - 1];
      SentSince(log[..|log| - 1], d, t) + if m.Sent? && m.domain == d && m.at >= t then 1 else 0
  }

  function DayStart(now: nat): nat { now / DAY * DAY }

  /** The settings row when it holds a positive value, else the configured default. */
  function GlobalCap(row: Option<int>, byDefault: int): (cap: int)
    ensures forall v | v > 0 && row == Some(v) :: cap == v
    ensures (forall v | v > 0 :: row != Some(v)) ==> cap == byDefault
  {
    if row.Some? && row.value > 0 then row.value else byDefault
  }

  ghost predicate Capped(log: seq<Message>, cap: int) {
    forall d: Domain, day: nat :: SentOn(log, d, day) <= if cap > 0 then cap else 0
  }

  // ----- suppression -----

  predicate SentInCampaign(log: seq<Message>, c: nat, person: string) {
    exists m | m in log :: m.Sent? && m.campaign == Some(c) && m.person == person
  }

  /** Sent at all, or with a cooldown sent within that many days of `now`. */
  predicate Contacted(log: seq<Message>, person: string, cooldown: nat, now: nat) {
    exists m | m in log :: m.Sent? && m.person == person && (cooldown > 0 ==> m.at + cooldown * DAY >= now)
  }

  /** Of two messages to one person the second must not repeat a campaign, nor come within the cooldown. */
  predicate Apart(m: Message, n: Message, cooldown: nat) {
    m.Sent? && n.Sent? && m.person == n.person ==>
      cooldown > 0 && m.at + cooldown * DAY < n.at && (m.campaign.None? || m.campaign != n.campaign)
  }

  predicate Spaced(log: seq<Message>, cooldown: nat) {
    forall i, j | 0 <= i < j < |log| :: Apart(log[i], log[j], cooldown)
  }

  predicate Past(log: seq<Message>, clock: nat) { forall m | m in log :: m.Sent? ==> m.at <= clock }

  ghost predicate LedgerOk(log: seq<Message>, clock: nat, cap: int, cooldown: nat) {
    Past(log, clock) && Capped(log, cap) && Spaced(log, cooldown)
  }

  // ----- counting -----

  lemma SentOnSnoc(log: seq<Message>, m: Message, d: Domain, day: nat)
    ensures SentOn(log + [m], d, day)
         == SentOn(log, d, day) + if m.Sent? && m.domain == d && m.at / DAY == day then 1 else 0
  {
    assert (log + [m])[..|log|] == log;
  }

  lemma SentSinceSnoc(log: seq<Message>, m: Message, d: Domain, t: nat)
    ensures SentSince(log + [m], d, t) == SentSince(log, d, t) + if m.Sent? && m.domain == d && m.at >= t then 1 else 0
  {
    assert (log + [m])[..|log|] == log;
  }

  /** Messages a campaign has sent, as its statistics count them from the log. */
  function SentFor(log: seq<Message>, c: nat): nat {
    if log == [] then 0
    else
      var m := log[|log| - 1];
      SentFor(log[..|log| - 1], c) + if m.Sent? && m.campaign == Some(c) then 1 else 0
  }

  lemma SentForSnoc(log: seq<Message>, m: Message, c: nat)
    ensures SentFor(log + [m], c) == SentFor(log, c) + if m.Sent? && m.campaign == Some(c) then 1 else 0
  {
    assert (log + [m])[..|log|] == log;
  }

  lemma SameDay(at: nat, now: nat)
    requires at <= now
    ensures at >= DayStart(now) <==> at / DAY == now / DAY
  {}

  /** Nothing is dated in the future, so counting from the start of today counts today. */
  lemma {:induction false} SinceIsToday(log: seq<Message>, d: Domain, now: nat)
    requires Past(log, now)
    ensures SentSince(log, d, DayStart(now)) == SentOn(log, d, now / DAY)
  {
    if log != [] {
      var n := |log| - 1;
      SinceIsToday(log[..n], d, now);
      if log[n].Sent? { SameDay(log[n].at, now); }
    }
  }

  lemma {:induction false} NothingTomorrow(log: seq<Message>, d: Domain, now: nat, day: nat)
    requires Past(log, now) && day > now / DAY
    ensures SentOn(log, d, day) == 0
  {
    if log != [] { NothingTomorrow(log[..|log| - 1], d, now, day); }
  }

  predicate SentThen(m: Message, d: Domain, day: nat) { m.Sent? && m.domain == d && m.at / DAY == day }

  function SentPlaces(log: seq<Message>, d: Domain, day: nat): set<int> {
    set i | 0 <= i < |log| && SentThen(log[i], d, day)
  }

  /** Every message sent from the domain on the day counts, a campaign's or a one-off, and each counts once. */
  lemma {:induction false} SentOnCounts(log: seq<Message>, d: Domain, day: nat)
    ensures SentOn(log, d, day) == |SentPlaces(log, d, day)|
  {
    if log != [] {
      var n := |log| - 1;
      SentOnCounts(log[..n], d, day);
      var front := SentPlaces(log[..n], d, day);
      assert SentPlaces(log, d, day) == if SentThen(log[n], d, day) then front + {n} else front;
    }
  }

  predicate SentBy(m: Message, c: nat) { m.Sent? && m.campaign == Some(c) }

  /** Likewise for what a campaign has sent. */
  lemma {:induction false} SentForCounts(log: seq<Message>, c: nat)
    ensures SentFor(log, c) == |set i | 0 <= i < |log| && SentBy(log[i], c)|
  {
    if log != [] {
      var n := |log| - 1;
      SentForCounts(log[..n], c);
      var front := set i | 0 <= i < n && SentBy(log[..n][i], c);
      assert (set i | 0 <= i < |log| && SentBy(log[i], c)) == if SentBy(log[n], c) then front + {n} else front;
    }
  }

  // ----- room left under the cap -----

  /** Whatever day it has become since the budget was drawn up, spending it all still fits under the cap. */
  ghost predicate Room(log: seq<Message>, clock: nat, cap: int, budget: map<Domain, int>) {
    && (forall d | d in budget :: budget[d] >= 0)
    && (forall d: Domain, day: nat | d in budget && day >= clock / DAY :: SentOn(log, d, day) + budget[d] <= cap)
  }

  lemma RoomAtFirst(log: seq<Message>, clock: nat, cap: int, budget: map<Domain, int>)
    requires Past(log, clock)
    requires forall d | d in budget :: 0 <= budget[d] <= cap - SentSince(log, d, DayStart(clock))
    ensures Room(log, clock, cap, budget)
  {
    forall d: Domain, day: nat | d in budget && day >= clock / DAY ensures SentOn(log, d, day) + budget[d] <= cap {
      SinceIsToday(log, d, clock);
      if day > clock / DAY { NothingTomorrow(log, d, clock, day); }
    }
  }

  lemma DaysPass(s: nat, t: nat)
    requires s <= t
    ensures s / DAY <= t / DAY
  {}

  lemma RoomLater(log: seq<Message>, clock: nat, later: nat, cap: int, budget: map<Domain, int>)
    requires Room(log, clock, cap, budget) && clock <= later
    ensures Room(log, later, cap, budget)
  {
    DaysPass(clock, later);
  }

  lemma SendFits(log: seq<Message>, m: Message, cap: int, budget: map<Domain, int>)
    requires m.Sent? && Room(log, m.at, cap, budget) && Capped(log, cap)
    requires m.domain in budget && budget[m.domain] > 0
    ensures Room(log + [m], m.at, cap, budget[m.domain := budget[m.domain] - 1])
    ensures Capped(log + [m], cap)
  {
    forall d: Domain, day: nat ensures SentOn(log + [m], d, day) <= if cap > 0 then cap else 0 {
      SentOnSnoc(log, m, d, day);
    }
    var less := budget[m.domain := budget[m.domain] - 1];
    forall d: Domain, day: nat | d in less && day >= m.at / DAY ensures SentOn(log + [m], d, day) + less[d] <= cap {
      SentOnSnoc(log, m, d, day);
    }
  }

  lemma FailureFits(log: seq<Message>, m: Message, clock: nat, cap: int, budget: map<Domain, int>)
    requires m.Failed? && Room(log, clock, cap, budget) && Capped(log, cap)
    ensures Room(log + [m], clock, cap, budget) && Capped(log + [m], cap)
  {
    forall d: Domain, day: nat ensures SentOn(log + [m], d, day) == SentOn(log, d, day) { SentOnSnoc(log, m, d, day); }
  }

  // ----- room between messages -----

  lemma MemberIndex(log: seq<Message>, i: nat)
    requires i < |log|
    ensures log[i] in log
  {}

  /** A person neither sent to in the campaign nor recently contacted may be sent to now or later. */
  lemma SendIsSpaced(log: seq<Message>, m: Message, checkedAt: nat, cooldown: nat)
    requires Spaced(log, cooldown) && m.Sent? && checkedAt <= m.at
    requires !Contacted(log, m.person, cooldown, checkedAt)
    requires m.campaign.Some? ==> !SentInCampaign(log, m.campaign.value, m.person)
    ensures Spaced(log + [m], cooldown)
  {
    forall i | 0 <= i < |log| ensures Apart(log[i], m, cooldown) { MemberIndex(log, i); }
  }

  /** The two checks hold back exactly the messages that would break the spacing of the log. */
  lemma SuppressionIsExact(log: seq<Message>, m: Message, cooldown: nat)
    requires Spaced(log, cooldown) && m.Sent?
    ensures Spaced(log + [m], cooldown) <==>
      !Contacted(log, m.person, cooldown, m.at)
      && (m.campaign.Some? ==> !SentInCampaign(log, m.campaign.value, m.person))
  {
    var n := |log|;
    if Spaced(log + [m], cooldown) {
      forall k | k in log && k.Sent? && k.person == m.person ensures Apart(k, m, cooldown) {
        var i :| 0 <= i < n && log[i] == k;
        assert Apart((log + [m])[i], (log + [m])[n], cooldown);
      }
    } else if !Contacted(log, m.person, cooldown, m.at)
           && (m.campaign.Some? ==> !SentInCampaign(log, m.campaign.value, m.person)) {
      SendIsSpaced(log, m, m.at, cooldown);
    }
  }

  lemma FailureIsSpaced(log: seq<Message>, m: Message, cooldown: nat)
    requires Spaced(log, cooldown) && m.Failed?
    ensures Spaced(log + [m], cooldown)
  {}
}
