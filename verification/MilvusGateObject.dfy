/** The gate as the service runs it: a list of waiter objects updated in place, proved against the hand-off rule. */
module MilvusGateObject {
  import opened MilvusGate
  import opened Options

  class GateWaiter {
    const task: nat
    const nice: int
    const arrival: nat
    var skips: nat
    var future: Future

    constructor (task: nat, nice: int, arrival: nat)
      ensures Snap() == Waiter(task, nice, arrival, 0, Pending)
    {
      this.task, this.nice, this.arrival := task, nice, arrival;
      skips, future := 0, Pending;
    }

    ghost function Snap(): Waiter
      reads this
    {
      Waiter(task, nice, arrival, skips, future)
    }
  }

  predicate Distinct(ws: seq<GateWaiter>) { forall i, j | 0 <= i < j < |ws| :: ws[i] != ws[j] }

  /** The objects hold exactly these values. */
  ghost predicate Models(ws: seq<GateWaiter>, m: seq<Waiter>)
    reads ws
  {
    |ws| == |m| && forall i | 0 <= i < |ws| ::
      m[i] == Waiter(ws[i].task, ws[i].nice, ws[i].arrival, ws[i].skips, ws[i].future)
  }

  /** The waiter the slot belongs to: of the pending ones at their skip ceiling the first to arrive; without any, one
      with the lowest nice, and of several the first to arrive. */
  ghost predicate NextInLine(chosen: GateWaiter, ws: seq<GateWaiter>, maxSkips: nat)
    reads ws, chosen
  {
    && chosen in ws && chosen.future == Pending
    && if exists v | v in ws :: v.future == Pending && v.skips >= maxSkips
       then chosen.skips >= maxSkips
         && forall v | v in ws && v.future == Pending && v.skips >= maxSkips :: chosen.arrival <= v.arrival
       else forall v | v in ws && v.future == Pending ::
         chosen.nice <= v.nice && (chosen.nice == v.nice ==> chosen.arrival <= v.arrival)
  }

  lemma RightfulObject(chosen: GateWaiter, ws: seq<GateWaiter>, m: seq<Waiter>, maxSkips: nat)
    requires Models(ws, m) && chosen in ws && Rightful(chosen.Snap(), m, maxSkips)
    ensures NextInLine(chosen, ws, maxSkips)
  {
    forall i | 0 <= i < |ws| ensures m[i] in m && m[i] == ws[i].Snap() {}
    forall v | v in m ensures exists u | u in ws :: u.Snap() == v {
      var i :| 0 <= i < |m| && m[i] == v;
      assert ws[i] in ws;
    }
  }

  lemma NobodyPending(ws: seq<GateWaiter>, m: seq<Waiter>)
    requires Models(ws, m) && Live(m) == []
    ensures forall w | w in ws :: w.future != Pending
  {
    FilterMembers(m, NotDone);
    forall v | v in m ensures !NotDone(v) { assert v in Live(m) <==> NotDone(v); }
    forall w | w in ws ensures w.future != Pending {
      var i :| 0 <= i < |ws| && ws[i] == w;
      assert m[i] in m;
    }
  }

  method Oldest(ws: seq<GateWaiter>) returns (chosen: GateWaiter)
    requires ws != []
    ensures chosen in ws && forall w | w in ws :: chosen.arrival <= w.arrival
  {
    chosen := ws[0];
    for i := 1 to |ws|
      invariant chosen in ws && forall j | 0 <= j < i :: chosen.arrival <= ws[j].arrival
    {
      if ws[i].arrival < chosen.arrival { chosen := ws[i]; }
    }
  }

  method Nicest(ws: seq<GateWaiter>) returns (chosen: GateWaiter)
    requires ws != []
    ensures chosen in ws
    ensures forall w | w in ws :: chosen.nice < w.nice || (chosen.nice == w.nice && chosen.arrival <= w.arrival)
  {
    chosen := ws[0];
    for i := 1 to |ws|
      invariant chosen in ws
      invariant forall j | 0 <= j < i ::
        chosen.nice < ws[j].nice || (chosen.nice == ws[j].nice && chosen.arrival <= ws[j].arrival)
    {
      if ws[i].nice < chosen.nice || (ws[i].nice == chosen.nice && ws[i].arrival < chosen.arrival) { chosen := ws[i]; }
    }
  }

  method StarvedOf(live: seq<GateWaiter>, maxSkips: nat) returns (starved: seq<GateWaiter>)
    ensures forall w :: w in starved <==> w in live && w.skips >= maxSkips
  {
    starved := [];
    for i := 0 to |live|
      invariant forall w :: w in starved <==> w in live[..i] && w.skips >= maxSkips
    {
      if live[i].skips >= maxSkips { starved := starved + [live[i]]; }
    }
  }

  /** Nobody comes before the waiter the hand-off rule chooses, so a waiter nobody comes before is that one. */
  lemma OnlyOneBest(ws: seq<Waiter>, k: nat, maxSkips: nat)
    requires InOrder(ws) && k < |ws| && forall i | 0 <= i < |ws| :: !Before(ws[i], ws[k], maxSkips)
    ensures k == Choose(ws, maxSkips)
  {
    ChooseMeaning(ws, maxSkips);
  }

  /** The starved waiter that waits longest, or else the nicest one: the waiter the hand-off rule chooses. */
  method Select(live: seq<GateWaiter>, ghost m: seq<Waiter>, maxSkips: nat) returns (chosen: GateWaiter)
    requires live != [] && Models(live, m) && InOrder(m)
    ensures chosen == live[Choose(m, maxSkips)]
  {
    var starved := StarvedOf(live, maxSkips);
    if starved != [] { chosen := Oldest(starved); } else { chosen := Nicest(live); }
    ghost var k :| 0 <= k < |live| && live[k] == chosen;
    forall i | 0 <= i < |m| ensures !Before(m[i], m[k], maxSkips) {
      assert live[i] in live;
    }
    OnlyOneBest(m, k, maxSkips);
  }

  /** Every waiter passed over moves one hand-off closer to its skip ceiling. */
  method SkipOthers(live: seq<GateWaiter>, chosen: GateWaiter)
    requires Distinct(live)
    modifies live`skips
    ensures forall i | 0 <= i < |live| :: live[i].skips == old(live[i].skips) + if live[i] == chosen then 0 else 1
  {
    for i := 0 to |live|
      invariant forall j | 0 <= j < |live| ::
        live[j].skips == old(live[j].skips) + if j < i && live[j] != chosen then 1 else 0
    {
      if live[i] != chosen { live[i].skips := live[i].skips + 1; }
    }
  }

  /** The list without `w`, which stands at `k`; a list that does not hold it is left alone. */
  method Removed(ws: seq<GateWaiter>, w: GateWaiter, ghost k: nat) returns (r: seq<GateWaiter>)
    requires Distinct(ws) && k <= |ws| && if k < |ws| then ws[k] == w else w !in ws
    ensures r == if k < |ws| then Without(ws, k) else ws
  {
    for i := 0 to |ws|
      invariant i <= k
    {
      if ws[i] == w { return ws[..i] + ws[i + 1..]; }
    }
    return ws;
  }

  lemma LinkedWithout(ws: seq<GateWaiter>, m: seq<Waiter>, k: nat)
    requires Distinct(ws) && Models(ws, m) && k < |ws|
    ensures Distinct(Without(ws, k)) && Models(Without(ws, k), Without(m, k)) && ws[k] !in Without(ws, k)
    ensures forall w | w in Without(ws, k) :: w in ws
  {}

  /** Takes the chosen waiter out of the live ones and resolves its future; everybody else gains a skip. */
  method HandTo(live: seq<GateWaiter>, chosen: GateWaiter, ghost m: seq<Waiter>, ghost c: nat)
    returns (rest: seq<GateWaiter>)
    requires Distinct(live) && Models(live, m) && c < |live| && chosen == live[c]
    modifies set w | w in live
    ensures chosen.future == Resolved && rest == Without(live, c)
    ensures Models(rest, Bump(Without(m, c)))
  {
    SkipOthers(live, chosen);
    rest := Removed(live, chosen, c);
    OthersBumped(live, m, c);
    ResolvedApart(rest, chosen);
  }

  /** Resolving a waiter that has left a list changes nothing in it. */
  method ResolvedApart(rest: seq<GateWaiter>, chosen: GateWaiter)
    requires chosen !in rest
    modifies chosen`future
    ensures chosen.future == Resolved && forall i | 0 <= i < |rest| :: rest[i].Snap() == old(rest[i].Snap())
  {
    chosen.future := Resolved;
  }

  lemma OthersBumped(live: seq<GateWaiter>, m: seq<Waiter>, c: nat)
    requires Distinct(live) && |m| == |live| && c < |live|
    requires forall i | 0 <= i < |live| && i != c :: live[i].Snap() == m[i].(skips := m[i].skips + 1)
    ensures Models(Without(live, c), Bump(Without(m, c))) && live[c] !in Without(live, c)
  {
    var rest := Without(live, c);
    forall i | 0 <= i < |rest| ensures rest[i].Snap() == Bump(Without(m, c))[i] && rest[i] != live[c] {
      assert rest[i] == live[if i < c then i else i + 1];
    }
  }

  /** Tasks are distinct in an orderly queue, so filtering one out removes one position. */
  lemma {:induction false} DropTask(ws: seq<Waiter>, k: nat)
    requires InOrder(ws) && k < |ws|
    ensures Filter(ws, OtherThan(ws[k].task)) == Without(ws, k)
  {
    assert forall i | 0 <= i < |ws| && i != k :: ws[i].task != ws[k].task by {
      assert forall i, j | 0 <= i < j < |ws| :: Ahead(ws[i], ws[j]);
    }
    DropOne(ws, k);
  }

  lemma {:induction false} DropOne(ws: seq<Waiter>, k: nat)
    requires k < |ws| && forall i | 0 <= i < |ws| && i != k :: ws[i].task != ws[k].task
    ensures Filter(ws, OtherThan(ws[k].task)) == Without(ws, k)
  {
    var front, last, t := ws[..|ws| - 1], ws[|ws| - 1], ws[k].task;
    assert ws == front + [last];
    FilterSnoc(front, last, OtherThan(t));
    if k < |front| {
      DropOne(front, k);
      assert Without(ws, k) == Without(front, k) + [last];
    } else {
      FilterAll(front, OtherThan(t));
      assert Without(ws, k) == front;
    }
  }

  class AsyncGate {
    var held: bool
    var waiters: seq<GateWaiter>
    var nextSeq: nat
    const maxSkips: nat
    /** The values of the queued waiters. */
    ghost var model: seq<Waiter>

    constructor (maxSkips: int)
      ensures Valid() && View() == Initial(maxSkips).gate
    {
      held, waiters, nextSeq, model := false, [], 0, [];
      this.maxSkips := if maxSkips < 1 then 1 else maxSkips;
    }

    /** The queued objects are distinct and hold the values of the model. */
    ghost predicate Valid()
      reads this, waiters
    {
      Distinct(waiters) && Models(waiters, model)
    }

    ghost function View(): Gate
      reads this
    {
      Gate(held, model, nextSeq, maxSkips)
    }

    method LiveWaiters() returns (live: seq<GateWaiter>)
      requires Valid()
      ensures Distinct(live) && Models(live, Live(model))
      ensures forall w | w in live :: w in waiters
    {
      live := [];
      for i := 0 to |waiters|
        invariant Models(live, Live(model[..i]))
        invariant forall w | w in live :: w in waiters[..i]
        invariant Distinct(live)
      {
        assert model[..i + 1] == model[..i] + [model[i]];
        FilterSnoc(model[..i], model[i], NotDone);
        assert waiters[i] !in waiters[..i];
        if waiters[i].future == Pending { live := live + [waiters[i]]; }
      }
      assert model[..|model|] == model;
    }

    /** The live waiter to be served next. */
    method Best(live: seq<GateWaiter>) returns (chosen: GateWaiter)
      requires Valid() && Orderly(View()) && live != [] && Models(live, Live(model))
      requires forall w | w in live :: w in waiters
      ensures chosen == live[Choose(Live(model), maxSkips)] && NextInLine(chosen, waiters, maxSkips)
    {
      FilterInOrder(model, NotDone);
      chosen := Select(live, Live(model), maxSkips);
      HandOffRule(View());
      RightfulObject(chosen, waiters, model, maxSkips);
    }

    /** Hands the slot to the chosen waiter, which is returned, or frees it. */
    method WakeNext() returns (chosen: GateWaiter?)
      requires Valid() && Orderly(View())
      modifies this, waiters
      ensures Valid() && View() == MilvusGate.WakeNext(old(View())).0
      ensures chosen == null <==> MilvusGate.WakeNext(old(View())).1.None?
      ensures chosen != null ==> chosen in old(waiters) && chosen !in waiters && chosen.future == Resolved
      ensures chosen != null ==> MilvusGate.WakeNext(old(View())).1 == Some(old(chosen.Snap()))
      ensures chosen != null ==> old(NextInLine(chosen, waiters, maxSkips))
      ensures chosen == null ==> forall w | w in old(waiters) :: old(w.future) != Pending
      ensures forall w | w in waiters :: w in old(waiters)
    {
      var live := LiveWaiters();
      if live == [] {
        NobodyPending(waiters, model);
        waiters, model, held := [], [], false;
        return null;
      }
      chosen := Best(live);
      HandSlot(live, chosen);
    }

    method HandSlot(live: seq<GateWaiter>, chosen: GateWaiter)
      requires Valid() && Distinct(live) && live != [] && Models(live, Live(model))
      requires chosen == live[Choose(Live(model), maxSkips)] && forall w | w in live :: w in waiters
      modifies this`waiters, this`model, waiters
      ensures Valid() && View() == MilvusGate.WakeNext(old(View())).0
      ensures MilvusGate.WakeNext(old(View())).1 == Some(old(chosen.Snap()))
      ensures chosen !in waiters && chosen.future == Resolved && forall w | w in waiters :: w in old(waiters)
    {
      ghost var m, c := Live(model), Choose(Live(model), maxSkips);
      LinkedWithout(live, m, c);
      waiters := HandTo(live, chosen, m, c);
      model := Bump(Without(m, c));
    }

    /** The part of acquire before its await: null when the slot was free, else the waiter to await. */
    method Enter(task: nat, nice: int) returns (w: GateWaiter?)
      requires Valid()
      modifies this
      ensures Valid()
      ensures w == null <==> !old(held) && old(model) == []
      ensures w == null ==> View() == old(View()).(held := true)
      ensures w != null ==> fresh(w) && w in waiters && w.future == Pending
      ensures w != null ==> View() == old(View()).(
        waiters := old(model) + [Waiter(task, nice, old(nextSeq), 0, Pending)], nextSeq := old(nextSeq) + 1)
    {
      if !held && waiters == [] {
        held := true;
        return null;
      }
      w := new GateWaiter(task, nice, nextSeq);
      nextSeq := nextSeq + 1;
      waiters, model := waiters + [w], model + [w.Snap()];
    }

    /** What acquire runs when its await was cancelled: pass a slot already handed over on, else leave the queue. */
    method OnCancelled(w: GateWaiter)
      requires Valid() && Orderly(View()) && w.future != Pending
      requires w !in waiters ==> forall v | v in model :: v.task != w.task
      modifies this, waiters
      ensures Valid()
      ensures View() == if old(w.future) == Resolved then MilvusGate.WakeNext(old(View())).0
        else old(View()).(waiters := Filter(old(model), OtherThan(w.task)))
    {
      if w.future == Resolved {
        var chosen := WakeNext();
      } else {
        RemoveWaiter(w);
      }
    }

    /** Takes a waiter whose future was cancelled out of the queue, if a hand-off has not pruned it already. */
    method RemoveWaiter(w: GateWaiter)
      requires Valid() && Orderly(View())
      requires w !in waiters ==> forall v | v in model :: v.task != w.task
      modifies this`waiters, this`model
      ensures Valid() && View() == old(View()).(waiters := Filter(old(model), OtherThan(w.task)))
    {
      var rest := Others(w);
      Requeue(rest, Filter(model, OtherThan(w.task)));
    }

    method Others(w: GateWaiter) returns (rest: seq<GateWaiter>)
      requires Valid() && InOrder(model)
      requires w !in waiters ==> forall v | v in model :: v.task != w.task
      ensures Distinct(rest) && Models(rest, Filter(model, OtherThan(w.task)))
    {
      ghost var k := RestOf(w);
      rest := Removed(waiters, w, k);
    }

    method Requeue(rest: seq<GateWaiter>, ghost m: seq<Waiter>)
      requires Distinct(rest) && Models(rest, m)
      modifies this`waiters, this`model
      ensures Valid() && waiters == rest && View() == old(View()).(waiters := m)
    {
      waiters, model := rest, m;
    }

    /** Where `w` stands, and the values left when it goes. */
    lemma RestOf(w: GateWaiter) returns (k: nat)
      requires Valid() && InOrder(model)
      requires w !in waiters ==> forall v | v in model :: v.task != w.task
      ensures k <= |waiters| && if k < |waiters| then waiters[k] == w else w !in waiters
      ensures var rest := if k < |waiters| then Without(waiters, k) else waiters;
        Distinct(rest) && Models(rest, Filter(model, OtherThan(w.task)))
    {
      k := |waiters|;
      if w in waiters {
        k :| 0 <= k < |waiters| && waiters[k] == w;
        DropTask(model, k);
        LinkedWithout(waiters, model, k);
      } else {
        FilterAll(model, OtherThan(w.task));
      }
    }

    method Release() returns (chosen: GateWaiter?)
      requires Valid() && Orderly(View())
      modifies this, waiters
      ensures Valid() && View() == MilvusGate.WakeNext(old(View())).0
    {
      chosen := WakeNext();
    }
  }
}
