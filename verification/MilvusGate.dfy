/** The priority gate that serializes Milvus access: its hand-off rule, and every interleaving of the tasks using it. */
module MilvusGate {
  import opened Options

  /** The state of the future a queued task awaits. */
  datatype Future = Pending | Cancelled | Resolved

  datatype Waiter = Waiter(task: nat, nice: int, arrival: nat, skips: nat, future: Future)

  datatype Gate = Gate(held: bool, waiters: seq<Waiter>, nextSeq: nat, maxSkips: nat)

  function Filter(ws: seq<Waiter>, keep: Waiter -> bool): seq<Waiter> {
    if ws == [] then []
    else Filter(ws[..|ws| - 1], keep) + if keep(ws[|ws| - 1]) then [ws[|ws| - 1]] else []
  }

  predicate NotDone(w: Waiter) { w.future.Pending? }

  function Live(ws: seq<Waiter>): seq<Waiter> { Filter(ws, NotDone) }

  function OtherThan(t: nat): Waiter -> bool { (w: Waiter) => w.task != t }

  predicate Starved(w: Waiter, maxSkips: nat) { w.skips >= maxSkips }

  /** Starved waiters come first, oldest first; the others by nice, then by arrival. */
  predicate Before(u: Waiter, v: Waiter, maxSkips: nat) {
    if Starved(u, maxSkips) || Starved(v, maxSkips)
    then Starved(u, maxSkips) && (Starved(v, maxSkips) ==> u.arrival < v.arrival)
    else u.nice < v.nice || (u.nice == v.nice && u.arrival < v.arrival)
  }

  function Choose(live: seq<Waiter>, maxSkips: nat): (c: nat)
    requires live != []
    ensures c < |live|
  {
    if |live| == 1 then 0
    else
      var c := Choose(live[..|live| - 1], maxSkips);
      if Before(live[|live| - 1], live[c], maxSkips) then |live| - 1 else c
  }

  function Bump(ws: seq<Waiter>): (r: seq<Waiter>)
    ensures |r| == |ws|
    ensures forall i | 0 <= i < |ws| :: r[i] == ws[i].(skips := ws[i].skips + 1)
  {
    seq(|ws|, i requires 0 <= i < |ws| => ws[i].(skips := ws[i].skips + 1))
  }

  function Without<T>(ws: seq<T>, c: nat): (r: seq<T>)
    requires c < |ws|
    ensures |r| == |ws| - 1
    ensures forall i | 0 <= i < |r| :: r[i] == if i < c then ws[i] else ws[i + 1]
  {
    ws[..c] + ws[c + 1..]
  }

  /** The slot goes to the chosen live waiter, everybody passed over gains a skip; with nobody waiting it is freed. */
  function WakeNext(g: Gate): (Gate, Option<Waiter>) {
    var live := Live(g.waiters);
    if live == [] then (g.(held := false, waiters := []), None)
    else
      var c := Choose(live, g.maxSkips);
      (g.(waiters := Bump(Without(live, c))), Some(live[c]))
  }

  // ----- tasks -----

  /** Where a task stands in `async with gate(nice)`; CancelPending and HandedCancelled have a cancellation to run. */
  datatype Phase = Idle | Queued | CancelPending | Handed | HandedCancelled | Owning

  datatype System = System(gate: Gate, phases: map<nat, Phase>) {
    function PhaseOf(t: nat): Phase { if t in phases then phases[t] else Idle }

    /** Task `t` runs inside the gate or has been given the slot. */
    predicate Holds(t: nat) { PhaseOf(t) in {Handed, HandedCancelled, Owning} }
  }

  function Initial(maxSkips: int): System {
    System(Gate(false, [], 0, if maxSkips < 1 then 1 else maxSkips), map[])
  }

  datatype Step = Acquire(task: nat, nice: int) | Resume(task: nat) | Cancel(task: nat) | Release(task: nat)

  function Enter(s: System, t: nat, nice: int): System {
    var g := s.gate;
    if !g.held && g.waiters == [] then System(g.(held := true), s.phases[t := Owning])
    else System(g.(waiters := g.waiters + [Waiter(t, nice, g.nextSeq, 0, Pending)], nextSeq := g.nextSeq + 1),
                s.phases[t := Queued])
  }

  /** Task `t` gives the slot up. */
  function PassOn(s: System, t: nat): System {
    var (g, chosen) := WakeNext(s.gate);
    System(g, if chosen.Some? then s.phases[t := Idle][chosen.value.task := Handed] else s.phases[t := Idle])
  }

  function CancelFuture(ws: seq<Waiter>, t: nat): seq<Waiter> {
    seq(|ws|, i requires 0 <= i < |ws| => if ws[i].task == t then ws[i].(future := Cancelled) else ws[i])
  }

  /** One stretch of code between two awaits, or the moment a cancellation lands; a step out of place does nothing. */
  function Next(s: System, step: Step): System {
    var t := step.task;
    match step
    case Acquire(_, nice) => if s.PhaseOf(t) == Idle then Enter(s, t, nice) else s
    case Release(_) => if s.PhaseOf(t) == Owning then PassOn(s, t) else s
    case Cancel(_) =>
      (match s.PhaseOf(t)
       case Queued => System(s.gate.(waiters := CancelFuture(s.gate.waiters, t)), s.phases[t := CancelPending])
       case Handed => s.(phases := s.phases[t := HandedCancelled])
       case _ => s)
    case Resume(_) =>
      (match s.PhaseOf(t)
       case Handed => System(s.gate.(held := true), s.phases[t := Owning])
       case HandedCancelled => PassOn(s, t)
       case CancelPending => System(s.gate.(waiters := Filter(s.gate.waiters, OtherThan(t))), s.phases[t := Idle])
       case _ => s)
  }

  function Run(s: System, steps: seq<Step>): System
    decreases |steps|
  {
    if steps == [] then s else Run(Next(s, steps[0]), steps[1..])
  }

  // ----- what every step keeps -----

  /** `u` joined before `v`; while both are live it has been passed over at least as often. */
  predicate Ahead(u: Waiter, v: Waiter) {
    u.arrival < v.arrival && u.task != v.task && (NotDone(u) && NotDone(v) ==> u.skips >= v.skips)
  }

  predicate InOrder(ws: seq<Waiter>) { forall i, j | 0 <= i < j < |ws| :: Ahead(ws[i], ws[j]) }

  predicate Orderly(g: Gate) {
    && g.maxSkips >= 1
    && InOrder(g.waiters)
    && (forall w | w in g.waiters :: w.arrival < g.nextSeq)
  }

  ghost predicate InQueue(ws: seq<Waiter>, t: nat) { exists w | w in ws :: w.task == t }

  /** Every queued future is in the state its task is in. */
  ghost predicate Matching(s: System) {
    && (forall w | w in s.gate.waiters :: !w.future.Resolved? &&
          s.PhaseOf(w.task) == if NotDone(w) then Queued else CancelPending)
    && (forall t: nat | s.PhaseOf(t) == Queued :: InQueue(s.gate.waiters, t))
  }

  /** At most one task has the slot, `held` says whether one does, and a free gate has nobody queued. */
  ghost predicate Safe(s: System) {
    && (forall t: nat, u: nat | s.Holds(t) && s.Holds(u) :: t == u)
    && (s.gate.held <==> exists t: nat :: s.Holds(t))
    && (!s.gate.held ==> s.gate.waiters == [])
  }

  ghost predicate Inv(s: System) { Orderly(s.gate) && Matching(s) && Safe(s) }

  lemma {:induction false} FilterMembers(ws: seq<Waiter>, keep: Waiter -> bool)
    ensures forall w :: w in Filter(ws, keep) <==> w in ws && keep(w)
  {
    if ws != [] {
      var front, last := ws[..|ws| - 1], ws[|ws| - 1];
      FilterMembers(front, keep);
      assert forall w :: w in ws <==> w in front || w == last;
    }
  }

  lemma {:induction false} FilterInOrder(ws: seq<Waiter>, keep: Waiter -> bool)
    requires InOrder(ws)
    ensures InOrder(Filter(ws, keep))
  {
    if ws != [] {
      var front, last := ws[..|ws| - 1], ws[|ws| - 1];
      FilterInOrder(front, keep);
      FilterMembers(front, keep);
      assert forall w | w in front :: Ahead(w, last);
    }
  }

  lemma {:induction false} FilterAll(ws: seq<Waiter>, keep: Waiter -> bool)
    requires forall w | w in ws :: keep(w)
    ensures Filter(ws, keep) == ws
  {
    if ws != [] {
      FilterAll(ws[..|ws| - 1], keep);
    }
  }

  /** The hand-off rule in the words of the gate. */
  lemma {:induction false} ChooseMeaning(live: seq<Waiter>, maxSkips: nat)
    requires live != [] && InOrder(live)
    ensures forall i | 0 <= i < |live| && i != Choose(live, maxSkips) ::
      Before(live[Choose(live, maxSkips)], live[i], maxSkips)
  {
    if |live| > 1 {
      var front := live[..|live| - 1];
      ChooseMeaning(front, maxSkips);
      var c := Choose(front, maxSkips);
      assert Ahead(live[c], live[|live| - 1]);
    }
  }

  /** The waiter a hand-off has to go to: of the live ones passed over `maxSkips` times the first to arrive; without
      any, one with the lowest nice, and of several the first to arrive. */
  predicate Rightful(w: Waiter, ws: seq<Waiter>, maxSkips: nat) {
    && w in ws && w.future.Pending?
    && if exists v | v in ws :: v.future.Pending? && v.skips >= maxSkips
       then w.skips >= maxSkips
         && forall v | v in ws && v.future.Pending? && v.skips >= maxSkips :: w.arrival <= v.arrival
       else forall v | v in ws && v.future.Pending? ::
         w.nice <= v.nice && (w.nice == v.nice ==> w.arrival <= v.arrival)
  }

  lemma BestIsRightful(ws: seq<Waiter>, live: seq<Waiter>, c: nat, maxSkips: nat)
    requires (forall w :: w in live <==> w in ws && w.future.Pending?) && c < |live|
    requires forall i | 0 <= i < |live| && i != c :: Before(live[c], live[i], maxSkips)
    ensures Rightful(live[c], ws, maxSkips)
  {
    var w := live[c];
    assert w in live;
    forall v | v in ws && v.future.Pending? ensures v == w || Before(w, v, maxSkips) {
      assert v in live;
      var i :| 0 <= i < |live| && live[i] == v;
    }
  }

  /** Every hand-off goes to the waiter it has to go to, and only an empty queue lets the slot go. */
  lemma HandOffRule(g: Gate)
    requires Orderly(g)
    ensures match WakeNext(g).1
      case None => forall v | v in g.waiters :: !v.future.Pending?
      case Some(w) => Rightful(w, g.waiters, g.maxSkips)
  {
    var live := Live(g.waiters);
    FilterMembers(g.waiters, NotDone);
    FilterInOrder(g.waiters, NotDone);
    if live == [] {
      forall v | v in g.waiters ensures !v.future.Pending? { assert NotDone(v) ==> v in live; }
    } else {
      ChooseMeaning(live, g.maxSkips);
      BestIsRightful(g.waiters, live, Choose(live, g.maxSkips), g.maxSkips);
    }
  }

  lemma BumpInOrder(live: seq<Waiter>, c: nat)
    requires InOrder(live) && c < |live|
    ensures InOrder(Bump(Without(live, c)))
  {
    var rest := Bump(Without(live, c));
    forall i, j | 0 <= i < j < |rest| ensures Ahead(rest[i], rest[j]) {
      assert Ahead(live[if i < c then i else i + 1], live[if j < c then j else j + 1]);
    }
  }

  lemma WakeKeepsOrder(g: Gate)
    requires Orderly(g)
    ensures Orderly(WakeNext(g).0)
  {
    var live := Live(g.waiters);
    FilterInOrder(g.waiters, NotDone);
    FilterMembers(g.waiters, NotDone);
    if live != [] {
      var c := Choose(live, g.maxSkips);
      BumpInOrder(live, c);
      forall i | 0 <= i < |live| - 1 ensures Bump(Without(live, c))[i].arrival < g.nextSeq {
        assert live[if i < c then i else i + 1] in live;
      }
    }
  }

  ghost predicate LiveTask(ws: seq<Waiter>, t: nat) { exists w | w in ws :: w.task == t && NotDone(w) }

  /** A hand-off goes to a live waiter, and whoever stays queued is live and somebody else. */
  lemma WakeTakes(g: Gate)
    requires Orderly(g)
    ensures var (g', chosen) := WakeNext(g);
      && (chosen.Some? ==> LiveTask(g.waiters, chosen.value.task))
      && (forall w | w in g'.waiters ::
            NotDone(w) && LiveTask(g.waiters, w.task) && chosen != None && chosen.value.task != w.task)
  {
    var ws, live := g.waiters, Live(g.waiters);
    FilterInOrder(ws, NotDone);
    FilterMembers(ws, NotDone);
    if live != [] {
      var c := Choose(live, g.maxSkips);
      var rest := Without(live, c);
      assert live[c] in live;
      forall i | 0 <= i < |rest|
        ensures NotDone(rest[i]) && LiveTask(ws, rest[i].task) && rest[i].task != live[c].task
      {
        var k := if i < c then i else i + 1;
        assert live[k] in live;
        assert Ahead(live[k], live[c]) || Ahead(live[c], live[k]);
      }
    }
  }

  /** Nobody live but the chosen task leaves the queue in a hand-off. */
  lemma WakeLeaves(g: Gate, t: nat)
    requires Orderly(g) && LiveTask(g.waiters, t)
    ensures var (g', chosen) := WakeNext(g); chosen.Some? && (chosen.value.task == t || LiveTask(g'.waiters, t))
  {
    var live := Live(g.waiters);
    FilterMembers(g.waiters, NotDone);
    var w :| w in g.waiters && w.task == t && NotDone(w);
    var k :| 0 <= k < |live| && live[k] == w;
    var c := Choose(live, g.maxSkips);
    if k != c {
      var rest := Bump(Without(live, c));
      var i := if k < c then k else k - 1;
      assert rest[i] in rest && rest[i].task == t && NotDone(rest[i]);
    }
  }

  /** Task `t` has or had the slot; whoever is chosen next is the only one to have it afterwards. */
  lemma PassOnKeepsInv(s: System, t: nat)
    requires Inv(s) && s.Holds(t)
    ensures Inv(PassOn(s, t))
  {
    var (g', chosen) := WakeNext(s.gate);
    var s' := PassOn(s, t);
    WakeKeepsOrder(s.gate);
    WakeTakes(s.gate);
    forall u: nat | s'.PhaseOf(u) == Queued ensures InQueue(g'.waiters, u) {
      assert InQueue(s.gate.waiters, u);
      WakeLeaves(s.gate, u);
    }
    forall u: nat | s'.Holds(u) ensures chosen.Some? && u == chosen.value.task {
      if chosen.Some? && u == chosen.value.task { } else { assert s.Holds(u); }
    }
    if chosen.Some? {
      assert s'.Holds(chosen.value.task);
    }
  }

  lemma CancelKeepsOrder(g: Gate, t: nat)
    requires Orderly(g)
    ensures Orderly(g.(waiters := CancelFuture(g.waiters, t)))
  {
    var ws, ws' := g.waiters, CancelFuture(g.waiters, t);
    forall i, j | 0 <= i < j < |ws'| ensures Ahead(ws'[i], ws'[j]) { assert Ahead(ws[i], ws[j]); }
    forall i | 0 <= i < |ws'| ensures ws'[i].arrival < g.nextSeq { assert ws[i] in ws; }
  }

  lemma CancelKeepsInv(s: System, t: nat)
    requires Inv(s) && s.PhaseOf(t) == Queued
    ensures Inv(Next(s, Cancel(t)))
  {
    var ws, s' := s.gate.waiters, Next(s, Cancel(t));
    var ws' := s'.gate.waiters;
    CancelKeepsOrder(s.gate, t);
    forall i | 0 <= i < |ws'|
      ensures !ws'[i].future.Resolved? && s'.PhaseOf(ws'[i].task) == if NotDone(ws'[i]) then Queued else CancelPending
    {
      assert ws[i] in ws;
    }
    forall u: nat | s'.PhaseOf(u) == Queued ensures InQueue(ws', u) {
      assert InQueue(ws, u);
      var i :| 0 <= i < |ws| && ws[i].task == u;
      assert ws'[i] in ws';
    }
    forall u: nat ensures s'.Holds(u) <==> s.Holds(u) {}
  }

  lemma DiscardKeepsInv(s: System, t: nat)
    requires Inv(s) && s.PhaseOf(t) == CancelPending
    ensures Inv(Next(s, Resume(t)))
  {
    var ws, s' := s.gate.waiters, Next(s, Resume(t));
    FilterInOrder(ws, OtherThan(t));
    FilterMembers(ws, OtherThan(t));
    forall u: nat | s'.PhaseOf(u) == Queued ensures InQueue(s'.gate.waiters, u) {
      assert InQueue(ws, u);
    }
    forall u: nat ensures s'.Holds(u) <==> s.Holds(u) {}
  }

  lemma EnterKeepsInv(s: System, t: nat, nice: int)
    requires Inv(s) && s.PhaseOf(t) == Idle
    ensures Inv(Enter(s, t, nice))
  {
    var ws, s' := s.gate.waiters, Enter(s, t, nice);
    if !s.gate.held {
      assert s'.Holds(t);
      forall u: nat | s'.Holds(u) ensures u == t {
        if u != t { assert s.Holds(u); }
      }
    } else {
      var w := Waiter(t, nice, s.gate.nextSeq, 0, Pending);
      forall v | v in ws ensures Ahead(v, w) {}
      forall u: nat | s'.PhaseOf(u) == Queued ensures InQueue(ws + [w], u) {
        if u == t { assert w in ws + [w]; } else { assert InQueue(ws, u); }
      }
      forall u: nat ensures s'.Holds(u) <==> s.Holds(u) {}
    }
  }

  lemma NextKeepsInv(s: System, step: Step)
    requires Inv(s)
    ensures Inv(Next(s, step))
  {
    var t, s' := step.task, Next(s, step);
    match step
    case Acquire(_, nice) => if s.PhaseOf(t) == Idle { EnterKeepsInv(s, t, nice); }
    case Release(_) => if s.PhaseOf(t) == Owning { PassOnKeepsInv(s, t); }
    case Cancel(_) =>
      if s.PhaseOf(t) == Queued {
        CancelKeepsInv(s, t);
      } else {
        forall u: nat ensures s'.Holds(u) <==> s.Holds(u) {}
      }
    case Resume(_) =>
      match s.PhaseOf(t) {
        case Handed =>
          assert s.Holds(t);
          forall u: nat ensures s'.Holds(u) <==> s.Holds(u) {}
        case HandedCancelled => PassOnKeepsInv(s, t);
        case CancelPending => DiscardKeepsInv(s, t);
        case _ =>
      }
  }

  /** Under every interleaving of acquires, releases and cancellations the slot is neither lost nor duplicated. */
  lemma {:induction false} GateIsSafe(maxSkips: int, steps: seq<Step>)
    ensures Inv(Run(Initial(maxSkips), steps))
  {
    RunKeepsInv(Initial(maxSkips), steps);
  }

  lemma {:induction false} RunKeepsInv(s: System, steps: seq<Step>)
    requires Inv(s)
    ensures Inv(Run(s, steps))
    decreases |steps|
  {
    if steps != [] {
      NextKeepsInv(s, steps[0]);
      RunKeepsInv(Next(s, steps[0]), steps[1..]);
    }
  }

  // ----- fairness -----

  /** Who gets the slot in this step. */
  function Chosen(s: System, step: Step): Option<Waiter> {
    if (step.Release? && s.PhaseOf(step.task) == Owning) || (step.Resume? && s.PhaseOf(step.task) == HandedCancelled)
    then WakeNext(s.gate).1
    else None
  }

  function HandOffs(s: System, steps: seq<Step>): nat
    decreases |steps|
  {
    if steps == [] then 0
    else (if Chosen(s, steps[0]).Some? then 1 else 0) + HandOffs(Next(s, steps[0]), steps[1..])
  }

  /** Hand-offs to waiters that joined after `arrival`. */
  function Overtakes(s: System, steps: seq<Step>, arrival: nat): nat
    decreases |steps|
  {
    if steps == [] then 0
    else
      var chosen := Chosen(s, steps[0]);
      (if chosen.Some? && chosen.value.arrival > arrival then 1 else 0)
      + Overtakes(Next(s, steps[0]), steps[1..], arrival)
  }

  predicate StaysQueued(s: System, steps: seq<Step>, t: nat)
    decreases |steps|
  {
    s.PhaseOf(t) == Queued && (steps != [] ==> StaysQueued(Next(s, steps[0]), steps[1..], t))
  }

  function SkipsLeft(w: Waiter, maxSkips: nat): nat { if w.skips < maxSkips then maxSkips - w.skips else 0 }

  lemma {:induction false} FilterIndex(ws: seq<Waiter>, keep: Waiter -> bool, i: nat) returns (k: nat)
    requires i < |ws| && keep(ws[i])
    ensures k <= i && k < |Filter(ws, keep)| && Filter(ws, keep)[k] == ws[i]
  {
    var front := ws[..|ws| - 1];
    if i < |front| {
      k := FilterIndex(front, keep, i);
    } else {
      k := |Filter(front, keep)|;
      FilterLength(front, keep);
    }
  }

  lemma {:induction false} FilterLength(ws: seq<Waiter>, keep: Waiter -> bool)
    ensures |Filter(ws, keep)| <= |ws|
  {
    if ws != [] {
      FilterLength(ws[..|ws| - 1], keep);
    }
  }

  lemma FilterSnoc(ws: seq<Waiter>, w: Waiter, keep: Waiter -> bool)
    ensures Filter(ws + [w], keep) == if keep(w) then Filter(ws, keep) + [w] else Filter(ws, keep)
  {
    assert (ws + [w])[..|ws|] == ws;
    assert Filter(ws, keep) + [] == Filter(ws, keep);
  }

  lemma {:induction false} LiveAfterCancel(ws: seq<Waiter>, t: nat)
    ensures Live(CancelFuture(ws, t)) == Filter(Live(ws), OtherThan(t))
  {
    if ws != [] {
      var front, last := ws[..|ws| - 1], ws[|ws| - 1];
      LiveAfterCancel(front, t);
      var last' := if last.task == t then last.(future := Cancelled) else last;
      assert CancelFuture(ws, t) == CancelFuture(front, t) + [last'];
      assert ws == front + [last];
      FilterSnoc(front, last, NotDone);
      FilterSnoc(CancelFuture(front, t), last', NotDone);
      FilterSnoc(Live(front), last, OtherThan(t));
    }
  }

  lemma {:induction false} LiveAfterDiscard(ws: seq<Waiter>, t: nat)
    ensures Live(Filter(ws, OtherThan(t))) == Filter(Live(ws), OtherThan(t))
  {
    if ws != [] {
      var front, last := ws[..|ws| - 1], ws[|ws| - 1];
      LiveAfterDiscard(front, t);
      assert ws == front + [last];
      FilterSnoc(front, last, NotDone);
      FilterSnoc(front, last, OtherThan(t));
      FilterSnoc(Filter(front, OtherThan(t)), last, NotDone);
      FilterSnoc(Live(front), last, OtherThan(t));
    }
  }

  /** A waiter passed over for a later one is not starved yet. */
  lemma OvertakenIsNotStarved(g: Gate, i: nat)
    requires Orderly(g) && i < |Live(g.waiters)| && i < Choose(Live(g.waiters), g.maxSkips)
    ensures !Starved(Live(g.waiters)[i], g.maxSkips)
  {
    var live := Live(g.waiters);
    FilterInOrder(g.waiters, NotDone);
    ChooseMeaning(live, g.maxSkips);
    assert Ahead(live[i], live[Choose(live, g.maxSkips)]);
  }

  lemma ByArrival(ws: seq<Waiter>, i: nat, j: nat)
    requires InOrder(ws) && i < |ws| && j < |ws| && ws[i].arrival < ws[j].arrival
    ensures i < j
  {}

  /** The same waiter, a hand-off later if there was one. */
  predicate SameWaiter(w: Waiter, w': Waiter, handOffs: nat) {
    w' == w.(skips := w.skips + handOffs)
  }

  /** Everybody left in the queue by a hand-off is live. */
  lemma WakeLive(g: Gate)
    requires Live(g.waiters) != []
    ensures Live(WakeNext(g).0.waiters) == Bump(Without(Live(g.waiters), Choose(Live(g.waiters), g.maxSkips)))
  {
    var live := Live(g.waiters);
    var c := Choose(live, g.maxSkips);
    FilterMembers(g.waiters, NotDone);
    forall w | w in Bump(Without(live, c)) ensures NotDone(w) {
      var j :| 0 <= j < |live| - 1 && Bump(Without(live, c))[j] == w;
      assert live[if j < c then j else j + 1] in live;
    }
    FilterAll(Bump(Without(live, c)), NotDone);
  }

  lemma WakeMoves(g: Gate, i: nat) returns (k: nat)
    requires Orderly(g) && i < |Live(g.waiters)| && i != Choose(Live(g.waiters), g.maxSkips)
    ensures var (live, live') := (Live(g.waiters), Live(WakeNext(g).0.waiters));
      && k < |live'| && SameWaiter(live[i], live'[k], 1)
      && SkipsLeft(live'[k], g.maxSkips) + k + 1 <= SkipsLeft(live[i], g.maxSkips) + i
      && (live[Choose(live, g.maxSkips)].arrival > live[i].arrival ==> !Starved(live[i], g.maxSkips))
  {
    var live := Live(g.waiters);
    var c := Choose(live, g.maxSkips);
    WakeLive(g);
    k := if i < c then i else i - 1;
    if i < c {
      OvertakenIsNotStarved(g, i);
    } else {
      FilterInOrder(g.waiters, NotDone);
      assert Ahead(live[c], live[i]);
    }
  }

  /** Joins, cancellations and clean-ups leave a waiter that stays queued no further back. */
  lemma NobodyCutsIn(s: System, step: Step, i: nat) returns (k: nat)
    requires Inv(s) && i < |Live(s.gate.waiters)| && Chosen(s, step).None?
    requires Next(s, step).PhaseOf(Live(s.gate.waiters)[i].task) == Queued
    ensures var (live, live') := (Live(s.gate.waiters), Live(Next(s, step).gate.waiters));
      k <= i && k < |live'| && SameWaiter(live[i], live'[k], 0)
  {
    var ws, t := s.gate.waiters, step.task;
    var live := Live(ws);
    k := i;
    FilterMembers(ws, NotDone);
    assert live[i] in live;
    if step.Acquire? && s.PhaseOf(t) == Idle {
      var w := Waiter(t, step.nice, s.gate.nextSeq, 0, Pending);
      assert (ws + [w])[..|ws|] == ws;
    } else if step.Cancel? && s.PhaseOf(t) == Queued {
      LiveAfterCancel(ws, t);
      k := FilterIndex(live, OtherThan(t), i);
    } else if step.Resume? && s.PhaseOf(t) == CancelPending {
      LiveAfterDiscard(ws, t);
      k := FilterIndex(live, OtherThan(t), i);
    }
  }

  lemma PassedOver(s: System, step: Step, i: nat) returns (k: nat)
    requires Inv(s) && i < |Live(s.gate.waiters)| && Chosen(s, step).Some?
    requires Next(s, step).PhaseOf(Live(s.gate.waiters)[i].task) == Queued
    ensures var (live, live') := (Live(s.gate.waiters), Live(Next(s, step).gate.waiters));
      && k < |live'| && SameWaiter(live[i], live'[k], 1)
      && SkipsLeft(live'[k], s.gate.maxSkips) + k + 1 <= SkipsLeft(live[i], s.gate.maxSkips) + i
      && (Chosen(s, step).value.arrival > live[i].arrival ==> !Starved(live[i], s.gate.maxSkips))
  {
    FilterMembers(s.gate.waiters, NotDone);
    assert Live(s.gate.waiters)[i] in Live(s.gate.waiters);
    k := WakeMoves(s.gate, i);
  }

  /** A waiter that stays queued keeps its identity, and a hand-off to somebody else uses up its patience. */
  lemma StepPatience(s: System, step: Step, i: nat) returns (k: nat)
    requires Inv(s) && i < |Live(s.gate.waiters)|
    requires Next(s, step).PhaseOf(Live(s.gate.waiters)[i].task) == Queued
    ensures var (live, live') := (Live(s.gate.waiters), Live(Next(s, step).gate.waiters));
      var h := if Chosen(s, step).Some? then 1 else 0;
      && Next(s, step).gate.maxSkips == s.gate.maxSkips
      && k < |live'| && SameWaiter(live[i], live'[k], h)
      && SkipsLeft(live'[k], s.gate.maxSkips) + k + h <= SkipsLeft(live[i], s.gate.maxSkips) + i
      && (h == 1 && Chosen(s, step).value.arrival > live[i].arrival ==> !Starved(live[i], s.gate.maxSkips))
  {
    if Chosen(s, step).Some? {
      k := PassedOver(s, step, i);
    } else {
      k := NobodyCutsIn(s, step, i);
    }
  }

  /** While a waiter stays queued the slot changes hands at most as often as it has skips left and waiters ahead,
      and goes to later arrivals at most as often as it has skips left. */
  lemma {:induction false} BoundedWait(s: System, steps: seq<Step>, i: nat)
    requires Inv(s) && i < |Live(s.gate.waiters)| && StaysQueued(s, steps, Live(s.gate.waiters)[i].task)
    ensures var w := Live(s.gate.waiters)[i];
      && HandOffs(s, steps) <= SkipsLeft(w, s.gate.maxSkips) + i
      && Overtakes(s, steps, w.arrival) <= SkipsLeft(w, s.gate.maxSkips)
    decreases |steps|
  {
    if steps != [] {
      var k := StepPatience(s, steps[0], i);
      NextKeepsInv(s, steps[0]);
      BoundedWait(Next(s, steps[0]), steps[1..], k);
    }
  }

  /** From the moment it joins, against any later arrivals and cancellations. */
  lemma BoundedOvertaking(s: System, t: nat, nice: int, steps: seq<Step>)
    requires Inv(s) && s.PhaseOf(t) == Idle && s.gate.held
    requires StaysQueued(Next(s, Acquire(t, nice)), steps, t)
    ensures var joined := Next(s, Acquire(t, nice));
      && HandOffs(joined, steps) <= s.gate.maxSkips + |Live(s.gate.waiters)|
      && Overtakes(joined, steps, s.gate.nextSeq) <= s.gate.maxSkips
  {
    var ws, w := s.gate.waiters, Waiter(t, nice, s.gate.nextSeq, 0, Pending);
    assert (ws + [w])[..|ws|] == ws;
    NextKeepsInv(s, Acquire(t, nice));
    BoundedWait(Next(s, Acquire(t, nice)), steps, |Live(ws)|);
  }

  lemma {:induction false} RunKeepsCeiling(s: System, steps: seq<Step>)
    ensures Run(s, steps).gate.maxSkips == s.gate.maxSkips
    decreases |steps|
  {
    if steps != [] { RunKeepsCeiling(Next(s, steps[0]), steps[1..]); }
  }

  /** Whoever joins a gate made with `maxSkips`, at any time, is overtaken at most that often, once if it is below 1. */
  lemma OvertakenWithinCeiling(maxSkips: int, before: seq<Step>, t: nat, nice: int, steps: seq<Step>)
    requires var s := Run(Initial(maxSkips), before);
      s.PhaseOf(t) == Idle && s.gate.held && StaysQueued(Next(s, Acquire(t, nice)), steps, t)
    ensures var s := Run(Initial(maxSkips), before);
      Overtakes(Next(s, Acquire(t, nice)), steps, s.gate.nextSeq) <= if maxSkips < 1 then 1 else maxSkips
  {
    GateIsSafe(maxSkips, before);
    RunKeepsCeiling(Initial(maxSkips), before);
    BoundedOvertaking(Run(Initial(maxSkips), before), t, nice, steps);
  }

  /** The starved waiters are the front of the queue. */
  lemma StarvedIsPrefix(s: System, i: nat, j: nat)
    requires Inv(s) && i < j < |Live(s.gate.waiters)| && Starved(Live(s.gate.waiters)[j], s.gate.maxSkips)
    ensures Starved(Live(s.gate.waiters)[i], s.gate.maxSkips)
  {
    FilterInOrder(s.gate.waiters, NotDone);
    FilterMembers(s.gate.waiters, NotDone);
    var live := Live(s.gate.waiters);
    assert Ahead(live[i], live[j]) && live[i] in live && live[j] in live;
  }

  /** The rule never prefers a later waiter of the same or a higher nice. */
  lemma ChoiceRespectsTier(live: seq<Waiter>, maxSkips: nat, i: nat, j: nat)
    requires InOrder(live) && i < j < |live| && live[i].nice <= live[j].nice
    requires NotDone(live[i]) && NotDone(live[j])
    ensures Choose(live, maxSkips) != j
  {
    assert Ahead(live[i], live[j]);
    ChooseMeaning(live, maxSkips);
  }

  lemma ChosenIsNotLater(g: Gate, i: nat, j: nat)
    requires Orderly(g) && i < j < |Live(g.waiters)| && Live(g.waiters)[i].nice <= Live(g.waiters)[j].nice
    ensures WakeNext(g).1.Some? && WakeNext(g).1.value.task != Live(g.waiters)[j].task
  {
    var live := Live(g.waiters);
    var c := Choose(live, g.maxSkips);
    FilterMembers(g.waiters, NotDone);
    FilterInOrder(g.waiters, NotDone);
    assert live[i] in live && live[j] in live;
    ChoiceRespectsTier(live, g.maxSkips, i, j);
    assert Ahead(live[c], live[j]) || Ahead(live[j], live[c]);
  }

  lemma OnlyChosenIsHanded(s: System, step: Step, t: nat)
    requires s.PhaseOf(t) == Queued && Next(s, step).PhaseOf(t) == Handed
    ensures Chosen(s, step).Some? && Chosen(s, step).value.task == t && Chosen(s, step) == WakeNext(s.gate).1
  {}

  /** Nobody is handed the slot while an earlier waiter of the same or a lower nice is live. */
  lemma TierFifo(s: System, step: Step, i: nat, j: nat)
    requires Inv(s) && i < j < |Live(s.gate.waiters)|
    requires Live(s.gate.waiters)[i].nice <= Live(s.gate.waiters)[j].nice
    ensures Next(s, step).PhaseOf(Live(s.gate.waiters)[j].task) != Handed
  {
    var t := Live(s.gate.waiters)[j].task;
    assert s.PhaseOf(t) == Queued by {
      FilterMembers(s.gate.waiters, NotDone);
      assert Live(s.gate.waiters)[j] in Live(s.gate.waiters);
    }
    ChosenIsNotLater(s.gate, i, j);
    if Next(s, step).PhaseOf(t) == Handed { OnlyChosenIsHanded(s, step, t); }
  }

  /** Two waiters of one tier that both stay queued are served in arrival order, forced selections included. */
  lemma {:induction false} ServedInArrivalOrder(s: System, steps: seq<Step>, last: Step, i: nat, j: nat)
    requires Inv(s) && i < j < |Live(s.gate.waiters)|
    requires Live(s.gate.waiters)[i].nice <= Live(s.gate.waiters)[j].nice
    requires StaysQueued(s, steps, Live(s.gate.waiters)[i].task) && StaysQueued(s, steps, Live(s.gate.waiters)[j].task)
    ensures Next(Run(s, steps), last).PhaseOf(Live(s.gate.waiters)[j].task) != Handed
    decreases |steps|
  {
    if steps == [] {
      TierFifo(s, last, i, j);
    } else {
      var i' := StepPatience(s, steps[0], i);
      var j' := StepPatience(s, steps[0], j);
      var next := Next(s, steps[0]);
      NextKeepsInv(s, steps[0]);
      assert i' < j' by {
        FilterInOrder(s.gate.waiters, NotDone);
        FilterInOrder(next.gate.waiters, NotDone);
        assert Ahead(Live(s.gate.waiters)[i], Live(s.gate.waiters)[j]);
        ByArrival(Live(next.gate.waiters), i', j');
      }
      ServedInArrivalOrder(next, steps[1..], last, i', j');
    }
  }
}
