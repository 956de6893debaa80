/** One-off sends: whom they go to, when they are refused, and what they leave in the books. */
module CampaignOneOff {
  import opened CampaignAccepted
  import opened CampaignLedger
  import opened CampaignMailboxes
  import opened CampaignPool
  import opened Emails
  import opened Options
  import opened Text

  datatype Verdict = Allowed | AlreadyContacted | CapReached

  /** How a one-off send came out; an unlogged one was sent, but its copy could not be read back. */
  datatype Direct = Refused(verdict: Verdict) | ProviderError | Unlogged | Delivered

  /** How long the service waits before each step of a one-off send. */
  datatype Pauses = Pauses(check: nat, count: nat, send: nat, read: nat, record: nat) {
    function Total(): nat { check + count + send + read + record }
  }

  /** A request with what Gmail answers, to the message and to the reading of its copy. */
  datatype Request = Request(account: nat, to: seq<string>, answer: Answer, copy: Answer, pauses: Pauses)

  /** When a send was checked against the log, counted against the cap, and accepted. */
  datatype Instants = Instants(checked: nat, counted: nat, sent: nat)

  /** The distinct addresses of a request, in normal form. */
  function Addresses(to: seq<string>): (r: seq<string>)
    ensures forall e :: e in r <==> e != "" && exists t :: t in to && Norm(t) == e
    ensures forall e | e in r :: Norm(e) == e
    ensures forall i, j | 0 <= i < j < |r| :: r[i] != r[j]
  {
    if to == [] then []
    else
      var n := |to| - 1;
      var front, e := Addresses(to[..n]), Norm(to[n]);
      NormTwice(to[n]);
      assert forall t :: t in to <==> t in to[..n] || t == to[n];
      if e == "" || e in front then front else front + [e]
  }

  predicate Uncontacted(log: seq<Message>, people: seq<string>, cooldown: nat, now: nat) {
    forall e | e in people :: !Contacted(log, e, cooldown, now)
  }

  /** Every address of a request is sent to under one spelling only, and nothing else is. */
  lemma AddressesMeaning(to: seq<string>)
    ensures forall i, j | 0 <= i < j < |Addresses(to)| :: !SameAddress(Addresses(to)[i], Addresses(to)[j])
    ensures forall t | t in to && Strip(t) != "" :: exists e :: e in Addresses(to) && SameAddress(e, t)
    ensures forall e | e in Addresses(to) :: exists t :: t in to && Strip(t) != "" && SameAddress(e, t)
  {
    var r := Addresses(to);
    forall i, j | 0 <= i < j < |r| ensures !SameAddress(r[i], r[j]) {
      assert r[i] in r && r[j] in r;
      NormMeaning(r[i], r[j]);
    }
    forall t | t in to && Strip(t) != "" ensures Norm(t) in r && SameAddress(Norm(t), t) {
      NormTwice(t);
      NormMeaning(Norm(t), t);
    }
    forall e | e in r ensures exists t :: t in to && Strip(t) != "" && SameAddress(e, t) {
      var t :| t in to && Norm(t) == e;
      NormMeaning(e, t);
    }
  }

  /** Somebody asked for was sent to, under whatever spelling, and within the cooldown if there is one. */
  predicate ReachedBefore(log: seq<Message>, to: seq<string>, cooldown: nat, now: nat) {
    exists t, m :: t in to && Strip(t) != "" && m in log && m.Sent? && SameAddress(m.person, t)
                   && (cooldown > 0 ==> m.at + cooldown * DAY >= now)
  }

  /** Another spelling of an address does not get past the log. */
  lemma AnySpelling(log: seq<Message>, to: seq<string>, cooldown: nat, now: nat)
    requires Tidy(log)
    ensures Uncontacted(log, Addresses(to), cooldown, now) <==> !ReachedBefore(log, to, cooldown, now)
  {
    forall t, m | t in to && Strip(t) != "" && m in log ensures SameAddress(m.person, t) <==> m.person == Norm(t) {
      StoredMeaning(m.person, t);
    }
    forall t | t in to ensures Strip(t) != "" <==> Norm(t) in Addresses(to) { NormMeaning(t, t); }
    if !Uncontacted(log, Addresses(to), cooldown, now) {
      var e :| e in Addresses(to) && Contacted(log, e, cooldown, now);
      var t :| t in to && Norm(t) == e;
      var m :| m in log && m.Sent? && m.person == e && (cooldown > 0 ==> m.at + cooldown * DAY >= now);
      assert SameAddress(m.person, t);
    }
  }

  /** The rows of a one-off send: one for each person, all dated alike. */
  function RowsFor(people: seq<string>, k: nat, d: Domain, at: nat): (r: seq<Message>)
    ensures |r| == |people| && forall i | 0 <= i < |r| :: r[i] == Sent(None, people[i], k, d, at)
  {
    if people == [] then []
    else RowsFor(people[..|people| - 1], k, d, at) + [Sent(None, people[|people| - 1], k, d, at)]
  }

  /** The checks of a one-off send: somebody contacted comes first, then the cap. */
  predicate Decided(v: Verdict, log: seq<Message>, people: seq<string>, d: Domain, cap: int, cooldown: nat,
                    checked: nat, counted: nat) {
    && (v.AlreadyContacted? <==> !Uncontacted(log, people, cooldown, checked))
    && (v.CapReached? <==> Uncontacted(log, people, cooldown, checked) && people != []
                           && SentSince(log, d, DayStart(counted)) + |people| > cap)
  }

  /** An allowed send goes as Gmail answers. */
  predicate Answered(r: Direct, answer: Answer, copy: Answer) {
    && !r.Refused? && (r.ProviderError? <==> !answer.Accepted?)
    && (r.Delivered? <==> answer.Accepted? && copy.Accepted?)
  }

  /** The mail Gmail has accepted when a send has come out so. */
  function Mail(r: Direct, people: seq<string>, k: nat, d: Domain, at: nat): seq<Message> {
    if r.Unlogged? || r.Delivered? then RowsFor(people, k, d, at) else []
  }

  /** The rows it adds to the log. */
  function Rows(r: Direct, people: seq<string>, k: nat, d: Domain, at: nat): seq<Message> {
    if r.Delivered? then RowsFor(people, k, d, at) else []
  }

  /** Mail that went out and is counted nowhere. */
  predicate Lost(q: Request, r: Direct) { r.Unlogged? && Addresses(q.to) != [] }

  predicate AuthFailed(q: Request) { q.answer.AuthError? || (q.answer.Accepted? && q.copy.AuthError?) }

  function Disabled(accounts: seq<Account>, k: nat): seq<Account>
    requires k < |accounts|
  {
    accounts[k := accounts[k].(active := false)]
  }

  /** What an allowed request makes of the books: mail accepted, rows logged, and a mailbox lost to a dead token. */
  predicate Went(b: Books, a: Books, q: Request, r: Direct, sent: nat)
    requires q.account < |b.accounts|
  {
    var people, d := Addresses(q.to), b.accounts[q.account].domain;
    && b.clock <= sent <= a.clock && Answered(r, q.answer, q.copy)
    && a.accepted == b.accepted + Mail(r, people, q.account, d, sent)
    && a.log == b.log + Rows(r, people, q.account, d, a.clock)
    && a.accounts == if AuthFailed(q) then Disabled(b.accounts, q.account) else b.accounts
  }

  /** What any request makes of them: a refused one nothing, but for the time it takes. */
  predicate SendOk(b: Books, a: Books, q: Request, r: Direct, w: Instants, cap: int, cooldown: nat)
    requires q.account < |b.accounts|
  {
    var people, d := Addresses(q.to), b.accounts[q.account].domain;
    && b.clock <= w.checked <= w.counted <= w.sent <= a.clock <= b.clock + q.pauses.Total()
    && Decided(if r.Refused? then r.verdict else Allowed, b.log, people, d, cap, cooldown, w.checked, w.counted)
    && if r.Refused? then !r.verdict.Allowed? && a == b.(clock := a.clock) else Went(b, a, q, r, w.sent)
  }

  // ----- one row for each person keeps the limits -----

  lemma RowsForAll(people: seq<string>, k: nat, d: Domain, at: nat)
    ensures SentRows(RowsFor(people, k, d, at)) == RowsFor(people, k, d, at)
  {
    if people != [] {
      var n := |people| - 1;
      RowsForAll(people[..n], k, d, at);
      SentRowsSnoc(RowsFor(people[..n], k, d, at), Sent(None, people[n], k, d, at));
    }
  }

  lemma OthersUncontacted(log: seq<Message>, rows: seq<Message>, e: string, cooldown: nat, now: nat)
    requires !Contacted(log, e, cooldown, now) && forall m | m in rows :: m.person != e
    ensures !Contacted(log + rows, e, cooldown, now)
  {}

  lemma {:induction false} RowsFit(log: seq<Message>, people: seq<string>, k: nat, d: Domain, at: nat, checked: nat,
                                   cap: int, cooldown: nat, n: nat)
    requires LedgerOk(log, at, cap, cooldown) && checked <= at && Uncontacted(log, people, cooldown, checked)
    requires (forall i, j | 0 <= i < j < |people| :: people[i] != people[j]) && |people| <= n
    requires Room(log, at, cap, map[d := n])
    ensures LedgerOk(log + RowsFor(people, k, d, at), at, cap, cooldown)
    ensures Room(log + RowsFor(people, k, d, at), at, cap, map[d := n - |people|])
  {
    if people == [] {
      assert log + RowsFor(people, k, d, at) == log;
    } else {
      var front, e := people[..|people| - 1], people[|people| - 1];
      var rows, m := RowsFor(front, k, d, at), Sent(None, e, k, d, at);
      RowsFit(log, front, k, d, at, checked, cap, cooldown, n);
      OthersUncontacted(log, rows, e, cooldown, checked);
      var budget: map<Domain, int> := map[d := n - |front|];
      LedgerGrows(log + rows, m, at, cap, cooldown, checked, budget);
      assert budget[d := budget[d] - 1] == map[d := n - |people|];
      Grouping(log, rows, [m]);
    }
  }

  lemma AllFit(log: seq<Message>, people: seq<string>, k: nat, d: Domain, clock: nat, at: nat, checked: nat,
               cap: int, cooldown: nat)
    requires LedgerOk(log, clock, cap, cooldown) && checked <= clock <= at
    requires Uncontacted(log, people, cooldown, checked)
    requires forall i, j | 0 <= i < j < |people| :: people[i] != people[j]
    requires people == [] || Room(log, clock, cap, map[d := |people|])
    ensures LedgerOk(log + RowsFor(people, k, d, at), at, cap, cooldown)
  {
    if people == [] {
      assert log + RowsFor(people, k, d, at) == log;
    } else {
      RoomLater(log, clock, at, cap, map[d := |people|]);
      RowsFit(log, people, k, d, at, checked, cap, cooldown, |people|);
    }
  }

  /** Accepted at one moment and logged at a later one, the mail stays within the limits on both counts. */
  lemma Recorded(log: seq<Message>, accepted: seq<Message>, people: seq<string>, k: nat, d: Domain,
                 clock: nat, sent: nat, now: nat, checked: nat, cap: int, cooldown: nat)
    requires MailOk(log, accepted, clock, cap, cooldown) && checked <= clock <= sent <= now
    requires Uncontacted(log, people, cooldown, checked) && forall e | e in people :: Norm(e) == e
    requires forall i, j | 0 <= i < j < |people| :: people[i] != people[j]
    requires people == [] || Room(log, clock, cap, map[d := |people|])
    ensures MailOk(log + RowsFor(people, k, d, now), accepted + RowsFor(people, k, d, sent), now, cap, cooldown)
  {
    AllFit(log, people, k, d, clock, now, checked, cap, cooldown);
    RowsTidy(log, people, k, d, now);
    RowsForAll(people, k, d, now);
    SentRowsAppend(log, RowsFor(people, k, d, now));
    if |SentRows(log)| == |accepted| {
      AcceptedFit(log, accepted, people, k, d, clock, sent, checked, cap, cooldown);
      MatchedRows(accepted, log, people, k, d, sent, now);
    }
  }

  lemma RowsTidy(log: seq<Message>, people: seq<string>, k: nat, d: Domain, at: nat)
    requires Tidy(log) && forall e | e in people :: Norm(e) == e
    ensures Tidy(log + RowsFor(people, k, d, at))
  {
    var rows := RowsFor(people, k, d, at);
    forall m | m in rows ensures Norm(m.person) == m.person {
      var i :| 0 <= i < |rows| && rows[i] == m;
      assert people[i] in people;
    }
  }

  lemma MatchedRows(accepted: seq<Message>, log: seq<Message>, people: seq<string>, k: nat, d: Domain, sent: nat,
                    now: nat)
    requires Matched(accepted, log) && sent <= now
    ensures Matched(accepted + RowsFor(people, k, d, sent), log + RowsFor(people, k, d, now))
  {
    var before, mail, rows := SentRows(log), RowsFor(people, k, d, sent), RowsFor(people, k, d, now);
    RowsForAll(people, k, d, now);
    SentRowsAppend(log, rows);
    PointwiseAppend(accepted, before, mail, rows);
  }

  lemma PointwiseAppend(a: seq<Message>, b: seq<Message>, mail: seq<Message>, rows: seq<Message>)
    requires |a| == |b| && forall i | 0 <= i < |b| :: SameMail(a[i], b[i])
    requires |mail| == |rows| && forall i | 0 <= i < |rows| :: SameMail(mail[i], rows[i])
    ensures |a + mail| == |b + rows| && forall i | 0 <= i < |b + rows| :: SameMail((a + mail)[i], (b + rows)[i])
  {}

  lemma AcceptedFit(log: seq<Message>, accepted: seq<Message>, people: seq<string>, k: nat, d: Domain,
                    clock: nat, sent: nat, checked: nat, cap: int, cooldown: nat)
    requires MailOk(log, accepted, clock, cap, cooldown) && checked <= clock <= sent && Matched(accepted, log)
    requires Uncontacted(log, people, cooldown, checked)
    requires forall i, j | 0 <= i < j < |people| :: people[i] != people[j]
    requires people == [] || Room(log, clock, cap, map[d := |people|])
    ensures LedgerOk(accepted + RowsFor(people, k, d, sent), sent, cap, cooldown)
  {
    if people != [] { AcceptedRoom(accepted, log, clock, cap, map[d := |people|]); }
    forall e | e in people ensures !Contacted(accepted, e, cooldown, checked) {
      AcceptedUncontacted(accepted, log, e, cooldown, checked);
    }
    AllFit(accepted, people, k, d, clock, sent, checked, cap, cooldown);
  }

  /** Mail that is accepted and never logged leaves the log as it was. */
  lemma NotRecorded(log: seq<Message>, accepted: seq<Message>, people: seq<string>, k: nat, d: Domain,
                    sent: nat, now: nat, cap: int, cooldown: nat)
    requires MailOk(log, accepted, now, cap, cooldown)
    ensures MailOk(log, accepted + RowsFor(people, k, d, sent), now, cap, cooldown)
  {
    if people == [] { assert accepted + RowsFor(people, k, d, sent) == accepted; }
  }

  /** A request leaves accepted mail unknown to the log exactly when its copy could not be read back. */
  lemma SendKnows(b: Books, a: Books, q: Request, r: Direct, w: Instants, cap: int, cooldown: nat)
    requires q.account < |b.accounts| && SendOk(b, a, q, r, w, cap, cooldown)
    ensures Unknown(a) == Unknown(b) + if Lost(q, r) then |Addresses(q.to)| else 0
  {
    var people, d := Addresses(q.to), b.accounts[q.account].domain;
    SentRowsAppend(b.log, Rows(r, people, q.account, d, a.clock));
    CountsKnow(r, people, q.account, d, w.sent, a.clock);
  }

  lemma CountsKnow(r: Direct, people: seq<string>, k: nat, d: Domain, sent: nat, now: nat)
    ensures |Mail(r, people, k, d, sent)|
         == |SentRows(Rows(r, people, k, d, now))| + if r.Unlogged? then |people| else 0
  {
    RowsForAll(people, k, d, now);
  }

  lemma RowsForTallies(pool: seq<Recipient>, log: seq<Message>, people: seq<string>, k: nat, d: Domain, at: nat)
    requires Tallied(pool, log)
    ensures Tallied(pool, log + RowsFor(people, k, d, at))
  {
    if people == [] {
      assert log + RowsFor(people, k, d, at) == log;
    } else {
      var front, m := people[..|people| - 1], Sent(None, people[|people| - 1], k, d, at);
      RowsForTallies(pool, log, front, k, d, at);
      OneOffTallies(pool, log + RowsFor(front, k, d, at), m);
      Grouping(log, RowsFor(front, k, d, at), [m]);
    }
  }
}
