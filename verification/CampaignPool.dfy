/** Campaigns and the recipients they still have to send to, and how batches of addresses are merged in. */
module CampaignPool {
  import opened CampaignLedger
  import opened CampaignPacing
  import opened Emails
  import opened Options
  import opened Text

  datatype Reason = AlreadySentInCampaign | GloballyContacted

  datatype Standing = Pending | Messaged | Suppressed(reason: Reason) | Undeliverable

  datatype Recipient = Recipient(campaign: nat, email: string, standing: Standing)

  datatype CampaignStatus = Draft | Running | Paused | Completed | Cancelled

  datatype Campaign = Campaign(owner: string, status: CampaignStatus, strategy: Strategy)

  /** How the mail provider answers one send. */
  datatype Answer = Accepted | AuthError | OtherError

  // ----- the recipient pool -----

  /** Addresses are stored in normal form and once per campaign. */
  predicate PoolOk(pool: seq<Recipient>) {
    && (forall r | r in pool :: Norm(r.email) == r.email && Usable(r.email))
    && (forall i, j | 0 <= i < j < |pool| && pool[i].campaign == pool[j].campaign :: pool[i].email != pool[j].email)
  }

  /** Recipients of one campaign may have left the pending state; nothing else about any recipient has changed. */
  predicate Moved(before: seq<Recipient>, after: seq<Recipient>, c: nat) {
    && |after| == |before|
    && forall i | 0 <= i < |before| :: after[i] == before[i] || Processed(before[i], after[i], c)
  }

  predicate Processed(r: Recipient, s: Recipient, c: nat) {
    IsPending(r, c) && !s.standing.Pending? && s == r.(standing := s.standing)
  }

  predicate IsPending(r: Recipient, c: nat) { r.standing.Pending? && r.campaign == c }

  function CountPending(pool: seq<Recipient>, c: nat): nat {
    if pool == [] then 0
    else CountPending(pool[..|pool| - 1], c) + if IsPending(pool[|pool| - 1], c) then 1 else 0
  }

  function PendingPlaces(pool: seq<Recipient>, c: nat): set<int> {
    set i | 0 <= i < |pool| && IsPending(pool[i], c)
  }

  lemma {:induction false} PendingCounts(pool: seq<Recipient>, c: nat)
    ensures CountPending(pool, c) == |PendingPlaces(pool, c)|
  {
    if pool != [] {
      var n := |pool| - 1;
      PendingCounts(pool[..n], c);
      var front := PendingPlaces(pool[..n], c);
      assert PendingPlaces(pool, c) == if IsPending(pool[n], c) then front + {n} else front;
    }
  }

  lemma {:induction false} MovedCount(before: seq<Recipient>, after: seq<Recipient>, c: nat, i: int)
    requires Moved(before, after, c)
    ensures CountPending(after, c) <= CountPending(before, c)
    ensures 0 <= i < |before| && after[i] != before[i] ==> CountPending(after, c) < CountPending(before, c)
  {
    if before != [] {
      var n := |before| - 1;
      MovedCount(before[..n], after[..n], c, i);
    }
  }

  lemma {:induction false} CountIsZero(pool: seq<Recipient>, c: nat)
    ensures CountPending(pool, c) == 0 <==> forall r | r in pool :: !IsPending(r, c)
  {
    if pool != [] {
      var n := |pool| - 1;
      CountIsZero(pool[..n], c);
      assert pool == pool[..n] + [pool[n]];
    }
  }

  lemma OneMore(before: seq<Recipient>, mid: seq<Recipient>, after: seq<Recipient>, c: nat, k: nat)
    requires Moved(before, mid, c) && k < |mid| && |after| == |mid| && after == mid[k := after[k]]
    requires mid[k] == before[k] && Processed(before[k], after[k], c)
    ensures Moved(before, after, c)
  {}

  // ----- the pool against the log -----

  /** Recipients a campaign's statistics count as sent. */
  function CountMessaged(pool: seq<Recipient>, c: nat): nat {
    if pool == [] then 0
    else CountMessaged(pool[..|pool| - 1], c) + Worth(pool[|pool| - 1], c)
  }

  function Worth(r: Recipient, c: nat): nat { if r.standing.Messaged? && r.campaign == c then 1 else 0 }

  predicate WasMessaged(r: Recipient, c: nat) { r.standing.Messaged? && r.campaign == c }

  lemma {:induction false} MessagedCounts(pool: seq<Recipient>, c: nat)
    ensures CountMessaged(pool, c) == |set i | 0 <= i < |pool| && WasMessaged(pool[i], c)|
  {
    if pool != [] {
      var n := |pool| - 1;
      MessagedCounts(pool[..n], c);
      var front := set i | 0 <= i < n && WasMessaged(pool[..n][i], c);
      assert (set i | 0 <= i < |pool| && WasMessaged(pool[i], c))
          == if WasMessaged(pool[n], c) then front + {n} else front;
    }
  }

  /** The two ways of counting what a campaign has sent agree. */
  ghost predicate Tallied(pool: seq<Recipient>, log: seq<Message>) {
    forall c: nat :: CountMessaged(pool, c) == SentFor(log, c)
  }

  lemma {:induction false} MessagedAt(pool: seq<Recipient>, i: nat, r: Recipient, c: nat)
    requires i < |pool|
    ensures CountMessaged(pool[i := r], c) + Worth(pool[i], c) == CountMessaged(pool, c) + Worth(r, c)
  {
    var n := |pool| - 1;
    if i < n {
      MessagedAt(pool[..n], i, r, c);
      assert pool[i := r][..n] == pool[..n][i := r];
    } else {
      assert pool[i := r][..n] == pool[..n];
    }
  }

  /** A pending recipient leaves that state, and the log gains a row of its campaign just when it was sent to. */
  lemma AttemptTallies(pool: seq<Recipient>, log: seq<Message>, i: nat, s: Standing, m: Message)
    requires Tallied(pool, log) && i < |pool| && pool[i].standing.Pending?
    requires m.Sent? == s.Messaged? && m.campaign == Some(pool[i].campaign)
    ensures Tallied(pool[i := pool[i].(standing := s)], log + [m])
  {
    forall c: nat ensures CountMessaged(pool[i := pool[i].(standing := s)], c) == SentFor(log + [m], c) {
      MessagedAt(pool, i, pool[i].(standing := s), c);
      SentForSnoc(log, m, c);
    }
  }

  lemma SkipTallies(pool: seq<Recipient>, log: seq<Message>, i: nat, s: Standing)
    requires Tallied(pool, log) && i < |pool| && pool[i].standing.Pending? && !s.Messaged?
    ensures Tallied(pool[i := pool[i].(standing := s)], log)
  {
    forall c: nat ensures CountMessaged(pool[i := pool[i].(standing := s)], c) == SentFor(log, c) {
      MessagedAt(pool, i, pool[i].(standing := s), c);
    }
  }

  lemma OneOffTallies(pool: seq<Recipient>, log: seq<Message>, m: Message)
    requires Tallied(pool, log) && m.campaign.None?
    ensures Tallied(pool, log + [m])
  {
    forall c: nat ensures SentFor(log + [m], c) == SentFor(log, c) { SentForSnoc(log, m, c); }
  }

  lemma {:induction false} NewcomersAreUnsent(pool: seq<Recipient>, merged: seq<Recipient>, c: nat)
    requires pool <= merged && forall r | r in merged[|pool|..] :: !r.standing.Messaged?
    ensures CountMessaged(merged, c) == CountMessaged(pool, c)
  {
    if |merged| > |pool| {
      var n := |merged| - 1;
      assert merged[n] == merged[|pool|..][n - |pool|];
      assert merged[..n][|pool|..] == merged[|pool|..][..n - |pool|];
      NewcomersAreUnsent(pool, merged[..n], c);
    } else {
      assert merged == pool;
    }
  }

  /** Recipients are only ever added, and leave the pending state at most once. */
  predicate Settles(before: seq<Recipient>, after: seq<Recipient>) {
    && |before| <= |after|
    && forall i | 0 <= i < |before| :: after[i] == before[i] || Processed(before[i], after[i], before[i].campaign)
  }

  lemma MovedPool(before: seq<Recipient>, after: seq<Recipient>, c: nat)
    requires Moved(before, after, c) && PoolOk(before)
    ensures PoolOk(after)
  {
    forall r | r in after ensures Norm(r.email) == r.email && Usable(r.email) {
      var i :| 0 <= i < |after| && after[i] == r;
      assert before[i] in before;
    }
  }

  /** Places of a campaign's pending recipients, oldest first. */
  method PendingOf(pool: seq<Recipient>, c: nat, limit: nat) returns (places: seq<nat>)
    ensures forall i | 0 <= i < |places| :: places[i] < |pool| && IsPending(pool[places[i]], c)
    ensures forall i, j | 0 <= i < j < |places| :: places[i] < places[j]
    ensures |places| <= limit
    ensures |places| < limit ==> forall k | 0 <= k < |pool| && IsPending(pool[k], c) :: k in places
    ensures places != [] ==> forall k | 0 <= k < places[|places| - 1] && IsPending(pool[k], c) :: k in places
    ensures places == [] ==> limit == 0 || CountPending(pool, c) == 0
  {
    places := [];
    var k := 0;
    while k < |pool| && |places| < limit
      invariant k <= |pool| && |places| <= limit
      invariant forall i | 0 <= i < |places| :: places[i] < k && IsPending(pool[places[i]], c)
      invariant forall i, j | 0 <= i < j < |places| :: places[i] < places[j]
      invariant forall i | 0 <= i < k && IsPending(pool[i], c) :: i in places
    {
      if IsPending(pool[k], c) { places := places + [k]; }
      k := k + 1;
    }
    CountIsZero(pool, c);
  }

  // ----- merging a source's addresses -----

  /** The addresses of a batch that can enter a pool, in normal form. */
  function Usables(items: seq<string>): (r: seq<string>)
    ensures forall e | e in r :: Usable(e) && Norm(e) == e
  {
    if items == [] then []
    else
      var n := |items| - 1;
      NormTwice(items[n]);
      Usables(items[..n]) + if Usable(Norm(items[n])) then [Norm(items[n])] else []
  }

  lemma AtSurvives(t: string)
    ensures '@' in t <==> '@' in Norm(t)
  {
    var a, b := StripCuts(t);
    forall i | 0 <= i < |Strip(t)| ensures Norm(t)[i] == '@' <==> Strip(t)[i] == '@' {}
    if '@' in t { assert '@' in Strip(t); }
  }

  predicate HasAt(t: string) { '@' in t }

  function AtPlaces(items: seq<string>): set<int> { set i | 0 <= i < |items| && HasAt(items[i]) }

  lemma AtPlacesMore(items: seq<string>, n: nat)
    requires |items| == n + 1
    ensures |AtPlaces(items)| == |AtPlaces(items[..n])| + if HasAt(items[n]) then 1 else 0
  {
    var front := AtPlaces(items[..n]);
    assert AtPlaces(items) == if HasAt(items[n]) then front + {n} else front;
  }

  /** As many enter as items have an at sign. */
  lemma {:induction false} UsablesCount(items: seq<string>)
    ensures |Usables(items)| == |AtPlaces(items)|
  {
    if items != [] {
      var n := |items| - 1;
      UsablesCount(items[..n]);
      AtSurvives(items[n]);
      AtPlacesMore(items, n);
    }
  }

  /** Exactly those enter, each under its normal form. */
  lemma {:induction false} UsablesMeaning(items: seq<string>, e: string)
    ensures e in Usables(items) <==> exists t :: t in items && HasAt(t) && Norm(t) == e
  {
    if items != [] {
      var n := |items| - 1;
      UsablesMeaning(items[..n], e);
      AtSurvives(items[n]);
      assert forall t :: t in items <==> t in items[..n] || t == items[n];
    }
  }

  /** A pool with every usable item has each of them under some spelling. */
  lemma EveryItemIsIn(pool: seq<Recipient>, c: nat, items: seq<string>)
    requires Members(Usables(items)) <= PoolEmails(pool, c)
    ensures forall t | t in items && HasAt(t) :: exists r :: r in pool && r.campaign == c && SameAddress(r.email, t)
  {
    forall t | t in items && HasAt(t) ensures exists r :: r in pool && r.campaign == c && SameAddress(r.email, t) {
      UsablesMeaning(items, Norm(t));
      assert Norm(t) in Members(Usables(items));
      var r :| r in pool && r.campaign == c && r.email == Norm(t);
      NormTwice(t);
      NormMeaning(Norm(t), t);
    }
  }

  /** No two recipients of a campaign have one address, however it is spelt. */
  lemma OnePerAddress(pool: seq<Recipient>)
    requires PoolOk(pool)
    ensures forall i, j | 0 <= i < j < |pool| && pool[i].campaign == pool[j].campaign ::
      !SameAddress(pool[i].email, pool[j].email)
  {
    forall i, j | 0 <= i < j < |pool| && pool[i].campaign == pool[j].campaign
      ensures !SameAddress(pool[i].email, pool[j].email)
    {
      assert pool[i] in pool && pool[j] in pool;
      NormMeaning(pool[i].email, pool[j].email);
    }
  }

  function PoolEmails(pool: seq<Recipient>, c: nat): set<string> { set r | r in pool && r.campaign == c :: r.email }

  function Members(s: seq<string>): set<string> { set e | e in s }

  datatype Counts = Counts(submitted: nat, added: nat, duplicate: nat, suppressed: nat) {
    function Duplicate(): Counts { this.(submitted := submitted + 1, duplicate := duplicate + 1) }

    function Admit(s: Standing): Counts {
      if s.Pending? then this.(submitted := submitted + 1, added := added + 1)
      else this.(submitted := submitted + 1, suppressed := suppressed + 1)
    }
  }

  function StandingFrom(email: string, sentInCampaign: set<string>, contacted: set<string>): Standing {
    if email in sentInCampaign then Suppressed(AlreadySentInCampaign)
    else if email in contacted then Suppressed(GloballyContacted)
    else Pending
  }

  lemma PoolSnoc(pool: seq<Recipient>, r: Recipient)
    requires PoolOk(pool) && Norm(r.email) == r.email && Usable(r.email) && r.email !in PoolEmails(pool, r.campaign)
    ensures PoolOk(pool + [r])
  {
    forall i | 0 <= i < |pool| && pool[i].campaign == r.campaign ensures pool[i].email != r.email {
      assert pool[i] in pool;
    }
  }

  lemma SnocCounts(pool: seq<Recipient>, r: Recipient, c: nat)
    requires r.campaign == c
    ensures CountPending(pool + [r], c) == CountPending(pool, c) + if r.standing.Pending? then 1 else 0
    ensures PoolEmails(pool + [r], c) == PoolEmails(pool, c) + {r.email}
  {
    assert (pool + [r])[..|pool|] == pool;
    forall e | e in PoolEmails(pool, c) + {r.email} ensures e in PoolEmails(pool + [r], c) {
      if e == r.email { assert r in pool + [r]; } else {
        var q :| q in pool && q.campaign == c && q.email == e;
        assert q in pool + [r];
      }
    }
  }

  predicate NewRows(rows: seq<Recipient>, c: nat, batch: seq<string>, sentInCampaign: set<string>,
                    contacted: set<string>) {
    forall r | r in rows ::
      r.email in batch && r == Recipient(c, r.email, StandingFrom(r.email, sentInCampaign, contacted))
  }

  /** `merged` is `pool` with the first addresses of a batch, those in `done`, merged in. */
  ghost predicate Merged(pool: seq<Recipient>, merged: seq<Recipient>, c: nat, done: seq<string>, n: Counts,
                         sentInCampaign: set<string>, contacted: set<string>) {
    && PoolOk(merged) && pool <= merged
    && n.submitted == |done| == n.added + n.duplicate + n.suppressed
    && |merged| == |pool| + n.added + n.suppressed && CountPending(merged, c) == CountPending(pool, c) + n.added
    && PoolEmails(merged, c) == PoolEmails(pool, c) + Members(done)
    && NewRows(merged[|pool|..], c, done, sentInCampaign, contacted)
  }

  lemma TakeMore<T>(s: seq<T>, i: nat)
    requires i < |s|
    ensures s[..i + 1] == s[..i] + [s[i]]
  {}

  lemma DropSnoc<T>(s: seq<T>, x: T, k: nat)
    requires k <= |s|
    ensures (s + [x])[k..] == s[k..] + [x]
  {}

  lemma MergedDuplicate(pool: seq<Recipient>, merged: seq<Recipient>, c: nat, done: seq<string>, n: Counts,
                        sentInCampaign: set<string>, contacted: set<string>, e: string)
    requires Merged(pool, merged, c, done, n, sentInCampaign, contacted) && e in PoolEmails(merged, c)
    ensures Merged(pool, merged, c, done + [e], n.Duplicate(), sentInCampaign, contacted)
  {
    assert Members(done + [e]) == Members(done) + {e};
  }

  lemma MergedNew(pool: seq<Recipient>, merged: seq<Recipient>, c: nat, done: seq<string>, n: Counts,
                  sentInCampaign: set<string>, contacted: set<string>, e: string)
    requires Merged(pool, merged, c, done, n, sentInCampaign, contacted) && e !in PoolEmails(merged, c)
    requires Usable(e) && Norm(e) == e
    ensures var standing := StandingFrom(e, sentInCampaign, contacted);
      Merged(pool, merged + [Recipient(c, e, standing)], c, done + [e], n.Admit(standing), sentInCampaign, contacted)
  {
    var r := Recipient(c, e, StandingFrom(e, sentInCampaign, contacted));
    PoolSnoc(merged, r);
    SnocCounts(merged, r, c);
    assert Members(done + [e]) == Members(done) + {e};
    DropSnoc(merged, r, |pool|);
  }

  /** One address of a batch: `done` are those before it. */
  method MergeOne(ghost pool: seq<Recipient>, merged: seq<Recipient>, c: nat, ghost done: seq<string>, email: string,
                  n: Counts, sentInCampaign: set<string>, contacted: set<string>, existing: set<string>,
                  seen: set<string>)
    returns (more: seq<Recipient>, m: Counts, nowSeen: set<string>)
    requires Merged(pool, merged, c, done, n, sentInCampaign, contacted) && PoolEmails(merged, c) == existing + seen
    requires Usable(email) && Norm(email) == email
    ensures Merged(pool, more, c, done + [email], m, sentInCampaign, contacted)
    ensures PoolEmails(more, c) == existing + nowSeen
  {
    if email in existing || email in seen {
      MergedDuplicate(pool, merged, c, done, n, sentInCampaign, contacted, email);
      return merged, n.Duplicate(), seen;
    }
    var r := Recipient(c, email, StandingFrom(email, sentInCampaign, contacted));
    MergedNew(pool, merged, c, done, n, sentInCampaign, contacted, email);
    SnocCounts(merged, r, c);
    return merged + [r], n.Admit(r.standing), seen + {email};
  }

  /** Adds a batch of normalized addresses to a pool, each at most once. */
  method Merge(pool: seq<Recipient>, c: nat, batch: seq<string>, sentInCampaign: set<string>, contacted: set<string>)
    returns (merged: seq<Recipient>, n: Counts)
    requires PoolOk(pool) && forall e | e in batch :: Usable(e) && Norm(e) == e
    ensures Merged(pool, merged, c, batch, n, sentInCampaign, contacted)
  {
    var existing := PoolEmails(pool, c);
    var seen: set<string> := {};
    merged, n := pool, Counts(0, 0, 0, 0);
    for i := 0 to |batch|
      invariant PoolEmails(merged, c) == existing + seen
      invariant Merged(pool, merged, c, batch[..i], n, sentInCampaign, contacted)
    {
      TakeMore(batch, i);
      merged, n, seen := MergeOne(pool, merged, c, batch[..i], batch[i], n, sentInCampaign, contacted, existing, seen);
    }
    assert batch[..|batch|] == batch;
  }
}
