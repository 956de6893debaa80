/** The owner's mailboxes, by domain, and whose turn it is to send from one. */
module CampaignMailboxes {
  import opened CampaignLedger
  import Division

  datatype Account = Account(owner: string, domain: Domain, active: bool)

  predicate Mine(a: Account, owner: string) { a.owner == owner && a.active }

  /** Places of the owner's active mailboxes of one domain, in order. */
  function Mailboxes(accounts: seq<Account>, owner: string, d: Domain): (r: seq<nat>)
    ensures forall k :: k in r <==> 0 <= k < |accounts| && Mine(accounts[k], owner) && accounts[k].domain == d
    ensures forall i, j | 0 <= i < j < |r| :: r[i] < r[j]
  {
    if accounts == [] then []
    else
      var n := |accounts| - 1;
      var front := Mailboxes(accounts[..n], owner, d);
      assert forall i | 0 <= i < |front| :: front[i] in front;
      front + if Mine(accounts[n], owner) && accounts[n].domain == d then [n] else []
  }

  predicate Owns(accounts: seq<Account>, owner: string, d: Domain) { Mailboxes(accounts, owner, d) != [] }

  lemma MailboxesSnoc(accounts: seq<Account>, i: nat, owner: string, d: Domain)
    requires i < |accounts|
    ensures Mailboxes(accounts[..i + 1], owner, d)
         == Mailboxes(accounts[..i], owner, d) + if Mine(accounts[i], owner) && accounts[i].domain == d then [i] else []
  {
    assert accounts[..i + 1][..i] == accounts[..i];
  }

  /** Exactly the domains the owner can send from, each with exactly its active mailboxes. */
  ghost predicate Grouped(accounts: seq<Account>, owner: string, byDomain: map<Domain, seq<nat>>) {
    && (forall d: Domain :: d in byDomain <==> Owns(accounts, owner, d))
    && (forall d | d in byDomain :: byDomain[d] == Mailboxes(accounts, owner, d))
  }

  function WithBox(byDomain: map<Domain, seq<nat>>, d: Domain, i: nat): map<Domain, seq<nat>> {
    byDomain[d := (if d in byDomain then byDomain[d] else []) + [i]]
  }

  lemma GroupedMore(accounts: seq<Account>, i: nat, owner: string, byDomain: map<Domain, seq<nat>>)
    requires i < |accounts| && Grouped(accounts[..i], owner, byDomain)
    ensures Grouped(accounts[..i + 1], owner,
                    if Mine(accounts[i], owner) then WithBox(byDomain, accounts[i].domain, i) else byDomain)
  {
    var next := if Mine(accounts[i], owner) then WithBox(byDomain, accounts[i].domain, i) else byDomain;
    forall e: Domain ensures (e in next <==> Owns(accounts[..i + 1], owner, e))
      && (e in next ==> next[e] == Mailboxes(accounts[..i + 1], owner, e))
    {
      GroupedAt(accounts, i, owner, byDomain, e);
    }
  }

  lemma GroupedAt(accounts: seq<Account>, i: nat, owner: string, byDomain: map<Domain, seq<nat>>, e: Domain)
    requires i < |accounts| && Grouped(accounts[..i], owner, byDomain)
    ensures var next := if Mine(accounts[i], owner) then WithBox(byDomain, accounts[i].domain, i) else byDomain;
      && (e in next <==> Owns(accounts[..i + 1], owner, e))
      && (e in next ==> next[e] == Mailboxes(accounts[..i + 1], owner, e))
  {
    MailboxesSnoc(accounts, i, owner, e);
    assert e !in byDomain ==> Mailboxes(accounts[..i], owner, e) == [];
  }

  method GroupByDomain(accounts: seq<Account>, owner: string) returns (byDomain: map<Domain, seq<nat>>)
    ensures Grouped(accounts, owner, byDomain)
  {
    byDomain := map[];
    for i := 0 to |accounts|
      invariant Grouped(accounts[..i], owner, byDomain)
    {
      GroupedMore(accounts, i, owner, byDomain);
      if Mine(accounts[i], owner) { byDomain := WithBox(byDomain, accounts[i].domain, i); }
    }
    assert accounts[..|accounts|] == accounts;
  }

  method Sorted(s: set<Domain>) returns (r: seq<Domain>)
    ensures forall d :: d in r <==> d in s
    ensures forall i, j | 0 <= i < j < |r| :: r[i] < r[j]
  {
    r := [];
    var rest := s;
    while rest != {}
      invariant rest <= s && forall d :: d in s <==> d in r || d in rest
      invariant forall i, j | 0 <= i < j < |r| :: r[i] < r[j]
      invariant forall d, e | d in r && e in rest :: d < e
      decreases |rest|
    {
      var least := Least(rest);
      assert forall i | 0 <= i < |r| :: r[i] in r;
      rest := rest - {least};
      r := r + [least];
    }
  }

  method Least(s: set<Domain>) returns (least: Domain)
    requires s != {}
    ensures least in s && forall d | d in s :: least <= d
  {
    least :| least in s;
    var rest := s - {least};
    while rest != {}
      invariant least in s && rest <= s && forall d | d in s && d !in rest :: least <= d
      decreases |rest|
    {
      var d :| d in rest;
      rest := rest - {d};
      if d < least { least := d; }
    }
  }

  // ----- taking turns -----

  /** Attempts, successful or not, from one domain and from one mailbox. */
  function AttemptsOn(rows: seq<Message>, d: Domain): nat {
    if rows == [] then 0 else AttemptsOn(rows[..|rows| - 1], d) + if rows[|rows| - 1].domain == d then 1 else 0
  }

  function AttemptsBy(rows: seq<Message>, k: nat): nat {
    if rows == [] then 0 else AttemptsBy(rows[..|rows| - 1], k) + if rows[|rows| - 1].account == k then 1 else 0
  }

  function Turn(turns: map<Domain, nat>, d: Domain): nat { if d in turns then turns[d] else 0 }

  /** The mailbox whose turn it is after `n` attempts from its domain. */
  function Next(boxes: seq<nat>, n: nat): nat
    requires boxes != []
  {
    boxes[n % |boxes|]
  }

  predicate InTurn(rows: seq<Message>, i: nat, byDomain: map<Domain, seq<nat>>)
    requires i < |rows|
  {
    var d := rows[i].domain;
    d in byDomain && byDomain[d] != [] && rows[i].account == Next(byDomain[d], AttemptsOn(rows[..i], d))
  }

  /** Every attempt was made from the mailbox of its domain whose turn it was. */
  predicate TakesTurns(rows: seq<Message>, byDomain: map<Domain, seq<nat>>) {
    forall i | 0 <= i < |rows| :: InTurn(rows, i, byDomain)
  }

  /** `turns` holds the attempts from every domain so far. */
  ghost predicate Counted(rows: seq<Message>, turns: map<Domain, nat>) {
    forall d: Domain :: Turn(turns, d) == AttemptsOn(rows, d)
  }

  lemma NextTurn(rows: seq<Message>, m: Message, turns: map<Domain, nat>, byDomain: map<Domain, seq<nat>>)
    requires TakesTurns(rows, byDomain) && Counted(rows, turns)
    requires m.domain in byDomain && byDomain[m.domain] != []
    requires m.account == Next(byDomain[m.domain], Turn(turns, m.domain))
    ensures TakesTurns(rows + [m], byDomain)
    ensures Counted(rows + [m], turns[m.domain := Turn(turns, m.domain) + 1])
  {
    assert (rows + [m])[..|rows|] == rows;
    forall d: Domain ensures Turn(turns[m.domain := Turn(turns, m.domain) + 1], d) == AttemptsOn(rows + [m], d) {
      assert Turn(turns, d) == AttemptsOn(rows, d);
    }
    forall i | 0 <= i < |rows + [m]| ensures InTurn(rows + [m], i, byDomain) {
      if i < |rows| {
        assert (rows + [m])[..i] == rows[..i];
        assert InTurn(rows, i, byDomain);
      }
    }
  }

  lemma TakesTurnsFront(rows: seq<Message>, byDomain: map<Domain, seq<nat>>)
    requires rows != [] && TakesTurns(rows, byDomain)
    ensures TakesTurns(rows[..|rows| - 1], byDomain)
    ensures var front, last := rows[..|rows| - 1], rows[|rows| - 1];
      && last.domain in byDomain && byDomain[last.domain] != []
      && last.account == Next(byDomain[last.domain], AttemptsOn(front, last.domain))
  {
    var front := rows[..|rows| - 1];
    forall i | 0 <= i < |front| ensures InTurn(front, i, byDomain) {
      assert InTurn(rows, i, byDomain) && rows[..i] == front[..i];
    }
    assert InTurn(rows, |rows| - 1, byDomain);
  }

  /** The share of the `j`th of `k` mailboxes in `n` attempts. */
  function ShareOf(n: nat, k: nat, j: nat): nat
    requires k > 0
  {
    n / k + if j < n % k then 1 else 0
  }

  lemma ShareGrows(n: nat, k: nat, j: nat)
    requires j < k
    ensures ShareOf(n + 1, k, j) == ShareOf(n, k, j) + if n % k == j then 1 else 0
  {
    Division.OneMore(n, k);
  }

  lemma SamePlace(s: seq<nat>, i: nat, j: nat)
    requires i < |s| && j < |s| && forall i, j | 0 <= i < j < |s| :: s[i] < s[j]
    ensures s[i] == s[j] <==> i == j
  {}

  /** No mailbox belongs to two domains, nor twice to one. */
  lemma OwnPlace(accounts: seq<Account>, owner: string, byDomain: map<Domain, seq<nat>>,
                 d: Domain, i: nat, e: Domain, j: nat)
    requires Grouped(accounts, owner, byDomain) && d in byDomain && e in byDomain
    requires i < |byDomain[d]| && j < |byDomain[e]|
    ensures byDomain[d][i] == byDomain[e][j] <==> d == e && i == j
  {
    assert byDomain[d][i] in Mailboxes(accounts, owner, d) && byDomain[e][j] in Mailboxes(accounts, owner, e);
    if d == e { SamePlace(byDomain[d], i, j); }
  }

  /** How often each of a domain's mailboxes has been used. */
  lemma {:induction false} UsesOfMailbox(rows: seq<Message>, accounts: seq<Account>, owner: string,
                                         byDomain: map<Domain, seq<nat>>, d: Domain, j: nat)
    requires Grouped(accounts, owner, byDomain) && TakesTurns(rows, byDomain) && d in byDomain && j < |byDomain[d]|
    ensures AttemptsBy(rows, byDomain[d][j]) == ShareOf(AttemptsOn(rows, d), |byDomain[d]|, j)
  {
    if rows == [] {
      Division.ModMultiple(0, |byDomain[d]|, 0);
    } else {
      var front, last := rows[..|rows| - 1], rows[|rows| - 1];
      var e, n := last.domain, AttemptsOn(front, last.domain);
      TakesTurnsFront(rows, byDomain);
      UsesOfMailbox(front, accounts, owner, byDomain, d, j);
      OwnPlace(accounts, owner, byDomain, d, j, e, n % |byDomain[e]|);
      if e == d { ShareGrows(n, |byDomain[d]|, j); }
    }
  }

  lemma PlaceOf(accounts: seq<Account>, owner: string, byDomain: map<Domain, seq<nat>>, a: nat) returns (i: nat)
    requires Grouped(accounts, owner, byDomain) && a < |accounts| && Mine(accounts[a], owner)
    ensures accounts[a].domain in byDomain
    ensures i < |byDomain[accounts[a].domain]| && byDomain[accounts[a].domain][i] == a
  {
    var d := accounts[a].domain;
    assert a in Mailboxes(accounts, owner, d);
    i :| 0 <= i < |byDomain[d]| && byDomain[d][i] == a;
  }

  /** Taking turns spreads the attempts of a domain over its active mailboxes to within one. */
  lemma TurnsAreEven(rows: seq<Message>, accounts: seq<Account>, owner: string, byDomain: map<Domain, seq<nat>>,
                     a: nat, b: nat)
    requires Grouped(accounts, owner, byDomain) && TakesTurns(rows, byDomain)
    requires a < |accounts| && b < |accounts| && accounts[a].domain == accounts[b].domain
    requires Mine(accounts[a], owner) && Mine(accounts[b], owner)
    ensures AttemptsBy(rows, a) <= AttemptsBy(rows, b) + 1
  {
    var d := accounts[a].domain;
    var i := PlaceOf(accounts, owner, byDomain, a);
    var j := PlaceOf(accounts, owner, byDomain, b);
    UsesOfMailbox(rows, accounts, owner, byDomain, d, i);
    UsesOfMailbox(rows, accounts, owner, byDomain, d, j);
  }
}
