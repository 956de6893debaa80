/** What Gmail has accepted, set against what the log says was sent. */
module CampaignAccepted {
  import opened CampaignLedger
  import opened CampaignMailboxes
  import opened Emails
  import opened Options

  /** The clock, the log, the mail Gmail has accepted, each message dated when it was, and the mailboxes. */
  datatype Books = Books(clock: nat, log: seq<Message>, accepted: seq<Message>, accounts: seq<Account>)

  /** The rows of a log that stand for mail sent. */
  function SentRows(log: seq<Message>): (r: seq<Message>)
    ensures forall m | m in r :: m.Sent? && m in log
    ensures |r| <= |log|
  {
    if log == [] then []
    else
      var m := log[|log| - 1];
      SentRows(log[..|log| - 1]) + if m.Sent? then [m] else []
  }

  lemma SentRowsSnoc(log: seq<Message>, m: Message)
    ensures SentRows(log + [m]) == SentRows(log) + if m.Sent? then [m] else []
  {
    assert (log + [m])[..|log|] == log;
  }

  lemma Grouping<T>(s: seq<T>, t: seq<T>, u: seq<T>)
    ensures s + t + u == s + (t + u)
  {}

  lemma {:induction false} SentRowsAppend(log: seq<Message>, rows: seq<Message>)
    ensures SentRows(log + rows) == SentRows(log) + SentRows(rows)
  {
    if rows == [] {
      assert log + rows == log;
    } else {
      var front, m := rows[..|rows| - 1], rows[|rows| - 1];
      Grouping(log, front, [m]);
      assert front + [m] == rows;
      SentRowsAppend(log, front);
      SentRowsSnoc(log + front, m);
      Grouping(SentRows(log), SentRows(front), if m.Sent? then [m] else []);
    }
  }

  /** An accepted message and its row, which may be dated later. */
  predicate SameMail(a: Message, m: Message) { a.Sent? && m.Sent? && a.at <= m.at && m == a.(at := m.at) }

  /** What was accepted is what the log says was sent, message by message. */
  ghost predicate Matched(accepted: seq<Message>, log: seq<Message>) {
    var rows := SentRows(log);
    |accepted| == |rows| && forall i | 0 <= i < |rows| :: SameMail(accepted[i], rows[i])
  }

  /** Nothing is logged as sent that was not accepted; while nothing else was accepted, the limits hold of accepted
      mail too. */
  ghost predicate InStep(accepted: seq<Message>, log: seq<Message>, clock: nat, cap: int, cooldown: nat) {
    && |SentRows(log)| <= |accepted|
    && (|SentRows(log)| == |accepted| ==> Matched(accepted, log) && LedgerOk(accepted, clock, cap, cooldown))
  }

  /** Every message is logged under its address in normal form. */
  predicate Tidy(log: seq<Message>) { forall m | m in log :: Norm(m.person) == m.person }

  ghost predicate MailOk(log: seq<Message>, accepted: seq<Message>, clock: nat, cap: int, cooldown: nat) {
    LedgerOk(log, clock, cap, cooldown) && InStep(accepted, log, clock, cap, cooldown) && Tidy(log)
  }

  /** What is promised of all mail: no domain sends more in a day than the settings row allows, or the default without a
      positive one; and one address, however it is spelt, is sent to again only after the cooldown, if there is one,
      and never twice in a campaign. */
  ghost predicate LimitsKept(log: seq<Message>, capRow: Option<int>, byDefault: int, cooldown: nat) {
    && (forall d: Domain, day: nat ::
          |SentPlaces(log, d, day)| <= if capRow.Some? && capRow.value > 0 then capRow.value
                                       else if byDefault > 0 then byDefault else 0)
    && (forall i, j | 0 <= i < j < |log| && log[i].Sent? && log[j].Sent? && SameAddress(log[i].person, log[j].person) ::
          && cooldown > 0 && log[i].at + cooldown * DAY < log[j].at
          && (log[i].campaign.None? || log[i].campaign != log[j].campaign))
  }

  lemma LimitsFollow(log: seq<Message>, clock: nat, capRow: Option<int>, byDefault: int, cooldown: nat)
    requires LedgerOk(log, clock, GlobalCap(capRow, byDefault), cooldown) && Tidy(log)
    ensures LimitsKept(log, capRow, byDefault, cooldown)
  {
    forall d: Domain, day: nat ensures |SentPlaces(log, d, day)| == SentOn(log, d, day) { SentOnCounts(log, d, day); }
    forall i, j | 0 <= i < j < |log|
      ensures SameAddress(log[i].person, log[j].person) <==> log[i].person == log[j].person
    {
      assert log[i] in log && log[j] in log;
      StoredMeaning(log[i].person, log[j].person);
    }
    forall i, j | 0 <= i < j < |log| ensures Apart(log[i], log[j], cooldown) {}
  }

  /** Accepted mail is under the same addresses as its rows. */
  lemma AcceptedTidy(accepted: seq<Message>, log: seq<Message>)
    requires Matched(accepted, log) && Tidy(log)
    ensures Tidy(accepted)
  {
    forall a | a in accepted ensures Norm(a.person) == a.person { var _ := RowOf(accepted, log, a); }
  }

  lemma MailLater(log: seq<Message>, accepted: seq<Message>, clock: nat, later: nat, cap: int, cooldown: nat)
    requires MailOk(log, accepted, clock, cap, cooldown) && clock <= later
    ensures MailOk(log, accepted, later, cap, cooldown)
  {}

  // ----- what the log rules out is ruled out of accepted mail -----

  lemma SameDayOrLater(a: Message, m: Message, now: nat, day: nat)
    requires SameMail(a, m) && m.at <= now && day >= now / DAY && a.at / DAY == day
    ensures m.at / DAY == day
  {
    DaysPass(a.at, m.at);
    DaysPass(m.at, now);
  }

  /** From today on no more has been accepted than the log counts, although a row may be dated a day late. */
  lemma {:induction false} AcceptedToday(accepted: seq<Message>, log: seq<Message>, d: Domain, now: nat, day: nat)
    requires Matched(accepted, log) && Past(log, now) && day >= now / DAY
    ensures SentOn(accepted, d, day) <= SentOn(log, d, day)
    decreases |log|
  {
    if log != [] {
      var n, k := |log| - 1, |accepted| - 1;
      if log[n].Failed? {
        AcceptedToday(accepted, log[..n], d, now, day);
      } else {
        assert SentRows(log)[k] == log[n] && SentRows(log)[..k] == SentRows(log[..n]);
        AcceptedToday(accepted[..k], log[..n], d, now, day);
        if accepted[k].at / DAY == day { SameDayOrLater(accepted[k], log[n], now, day); }
      }
    }
  }

  lemma AcceptedRoom(accepted: seq<Message>, log: seq<Message>, now: nat, cap: int, budget: map<Domain, int>)
    requires Matched(accepted, log) && Past(log, now) && Room(log, now, cap, budget)
    ensures Room(accepted, now, cap, budget)
  {
    forall d: Domain, day: nat | d in budget && day >= now / DAY ensures SentOn(accepted, d, day) + budget[d] <= cap {
      AcceptedToday(accepted, log, d, now, day);
    }
  }

  lemma RowOf(accepted: seq<Message>, log: seq<Message>, a: Message) returns (m: Message)
    requires Matched(accepted, log) && a in accepted
    ensures m in log && SameMail(a, m)
  {
    var i :| 0 <= i < |accepted| && accepted[i] == a;
    m := SentRows(log)[i];
    assert m in SentRows(log);
  }

  lemma AcceptedUncontacted(accepted: seq<Message>, log: seq<Message>, person: string, cooldown: nat, now: nat)
    requires Matched(accepted, log) && !Contacted(log, person, cooldown, now)
    ensures !Contacted(accepted, person, cooldown, now)
  {
    forall a | a in accepted
      ensures !(a.Sent? && a.person == person && (cooldown > 0 ==> a.at + cooldown * DAY >= now))
    {
      var _ := RowOf(accepted, log, a);
    }
  }

  lemma AcceptedNotInCampaign(accepted: seq<Message>, log: seq<Message>, c: nat, person: string)
    requires Matched(accepted, log) && !SentInCampaign(log, c, person)
    ensures !SentInCampaign(accepted, c, person)
  {
    forall a | a in accepted ensures !(a.Sent? && a.campaign == Some(c) && a.person == person) {
      var _ := RowOf(accepted, log, a);
    }
  }

  // ----- one more message -----

  /** Sent within a budget to somebody not suppressed, a message keeps caps and spacing. */
  lemma LedgerGrows(log: seq<Message>, m: Message, clock: nat, cap: int, cooldown: nat, checked: nat,
                    budget: map<Domain, int>)
    requires LedgerOk(log, clock, cap, cooldown) && m.Sent? && clock <= m.at && checked <= m.at
    requires Room(log, m.at, cap, budget) && m.domain in budget && budget[m.domain] > 0
    requires !Contacted(log, m.person, cooldown, checked)
    requires m.campaign.Some? ==> !SentInCampaign(log, m.campaign.value, m.person)
    ensures LedgerOk(log + [m], m.at, cap, cooldown)
    ensures Room(log + [m], m.at, cap, budget[m.domain := budget[m.domain] - 1])
  {
    SendFits(log, m, cap, budget);
    SendIsSpaced(log, m, checked, cooldown);
  }

  lemma MatchedSnoc(accepted: seq<Message>, log: seq<Message>, m: Message)
    requires Matched(accepted, log) && m.Sent?
    ensures Matched(accepted + [m], log + [m])
  {
    SentRowsSnoc(log, m);
  }

  lemma MailSent(log: seq<Message>, accepted: seq<Message>, m: Message, clock: nat, cap: int, cooldown: nat,
                 checked: nat, budget: map<Domain, int>)
    requires MailOk(log, accepted, clock, cap, cooldown) && m.Sent? && clock <= m.at && checked <= m.at
    requires Room(log, m.at, cap, budget) && m.domain in budget && budget[m.domain] > 0
    requires !Contacted(log, m.person, cooldown, checked) && Norm(m.person) == m.person
    requires m.campaign.Some? ==> !SentInCampaign(log, m.campaign.value, m.person)
    ensures MailOk(log + [m], accepted + [m], m.at, cap, cooldown)
    ensures Room(log + [m], m.at, cap, budget[m.domain := budget[m.domain] - 1])
  {
    LedgerGrows(log, m, clock, cap, cooldown, checked, budget);
    SentRowsSnoc(log, m);
    if |SentRows(log)| == |accepted| {
      AcceptedRoom(accepted, log, m.at, cap, budget);
      AcceptedUncontacted(accepted, log, m.person, cooldown, checked);
      if m.campaign.Some? { AcceptedNotInCampaign(accepted, log, m.campaign.value, m.person); }
      LedgerGrows(accepted, m, clock, cap, cooldown, checked, budget);
      MatchedSnoc(accepted, log, m);
    }
  }

  lemma MailFailed(log: seq<Message>, accepted: seq<Message>, m: Message, clock: nat, cap: int, cooldown: nat,
                   budget: map<Domain, int>)
    requires MailOk(log, accepted, clock, cap, cooldown) && m.Failed? && Room(log, clock, cap, budget)
    requires Norm(m.person) == m.person
    ensures MailOk(log + [m], accepted, clock, cap, cooldown) && Room(log + [m], clock, cap, budget)
  {
    FailureFits(log, m, clock, cap, budget);
    FailureIsSpaced(log, m, cooldown);
    SentRowsSnoc(log, m);
  }

  // ----- in step over many messages -----

  /** How much accepted mail the log does not know. */
  function Unknown(b: Books): int { |b.accepted| - |SentRows(b.log)| }

  lemma KnownIsMatched(b: Books, cap: int, cooldown: nat)
    requires InStep(b.accepted, b.log, b.clock, cap, cooldown)
    ensures Unknown(b) >= 0 && (Unknown(b) == 0 <==> Matched(b.accepted, b.log))
  {}

  /** Everything logged as sent between two moments, and nothing else, was accepted meanwhile. */
  predicate Followed(b: Books, a: Books) {
    b.log <= a.log && a.accepted == b.accepted + SentRows(a.log[|b.log|..])
  }

  lemma DropTwice<T>(s: seq<T>, t: seq<T>, u: seq<T>)
    requires s <= t <= u
    ensures u[|s|..] == t[|s|..] + u[|t|..]
  {}

  lemma FollowedOn(b: Books, m: Books, a: Books)
    requires Followed(b, m) && Followed(m, a)
    ensures Followed(b, a)
  {
    var rows1, rows2 := m.log[|b.log|..], a.log[|m.log|..];
    DropTwice(b.log, m.log, a.log);
    SentRowsAppend(rows1, rows2);
    Grouping(b.accepted, SentRows(rows1), SentRows(rows2));
  }

  lemma FollowedRows(b: Books, a: Books, rows: seq<Message>)
    requires a.log == b.log + rows && a.accepted == b.accepted + SentRows(rows)
    ensures Followed(b, a)
  {
    assert a.log[|b.log|..] == rows;
  }

  lemma FollowedKnows(b: Books, a: Books)
    requires Followed(b, a)
    ensures Unknown(a) == Unknown(b)
  {
    SentRowsAppend(b.log, a.log[|b.log|..]);
    assert b.log + a.log[|b.log|..] == a.log;
  }
}
