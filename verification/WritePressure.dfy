/** Milvus write-pressure backoff: upserts of one embedding stream draw down a shared retry budget. */
module WritePressure {

  const MAX_SINGLE_BACKOFF := 16.0
  const MAX_UNBOUND_TOTAL := 60.0

  function Min(a: real, b: real): real { if a < b then a else b }

  function Max(a: real, b: real): real { if a < b then b else a }

  function Pow2(n: nat): (r: real)
    ensures r >= 1.0
  {
    if n == 0 then 1.0 else 2.0 * Pow2(n - 1)
  }

  /** The sleep before retry `attempt`, given what is left of the budget. */
  function Backoff(attempt: nat, remaining: real): (b: real)
    requires remaining > 0.0
    ensures 0.0 < b <= MAX_SINGLE_BACKOFF && b <= remaining && (b >= 1.0 || b == remaining)
  {
    Min(Min(Pow2(attempt), MAX_SINGLE_BACKOFF), remaining)
  }

  /** With budget enough the sleeps are 1, 2, 4, 8 and from then on 16 seconds; with less left, no longer than that. */
  lemma BackoffDoubles(attempt: nat, remaining: real)
    requires remaining > 0.0
    ensures remaining >= 16.0 ==> Backoff(0, remaining) == 1.0
    ensures remaining >= 16.0 ==>
      Backoff(attempt + 1, remaining)
      == if Backoff(attempt, remaining) < 8.0 then 2.0 * Backoff(attempt, remaining) else 16.0
    ensures remaining < 16.0 ==> Backoff(attempt, remaining) == Min(Backoff(attempt, 16.0), remaining)
  {
    assert Pow2(attempt + 1) == 2.0 * Pow2(attempt);
  }

  // ----- many upserts sharing one budget -----

  /** An upsert that is sleeping knows its attempt and the sleep it took; the budget is charged only afterwards. */
  datatype Upsert = Trying(attempt: nat) | Sleeping(attempt: nat, backoff: real) | Ended

  /** `slept` counts finished sleeps; it is what the budget promises to bound. */
  datatype Stream = Stream(remaining: real, upserts: seq<Upsert>, slept: real)

  function Create(total: real): Stream { Stream(Max(0.0, total), [], 0.0) }

  datatype Step =
    | Start                 // another chunk of the stream begins its upsert
    | Succeed(i: nat)
    | HardFailure(i: nat)   // any error that is not write pressure propagates
    | Pressure(i: nat)      // throttled: sleep, or give up once the budget is spent
    | Wake(i: nat)

  function Next(s: Stream, step: Step): Stream {
    match step
    case Start => s.(upserts := s.upserts + [Trying(0)])
    case Succeed(i) => if i < |s.upserts| && s.upserts[i].Trying? then s.(upserts := s.upserts[i := Ended]) else s
    case HardFailure(i) => if i < |s.upserts| && s.upserts[i].Trying? then s.(upserts := s.upserts[i := Ended]) else s
    case Pressure(i) =>
      if i < |s.upserts| && s.upserts[i].Trying? then
        if s.remaining <= 0.0 then s.(upserts := s.upserts[i := Ended])
        else s.(upserts := s.upserts[i := Sleeping(s.upserts[i].attempt, Backoff(s.upserts[i].attempt, s.remaining))])
      else s
    case Wake(i) =>
      if i < |s.upserts| && s.upserts[i].Sleeping? then
        var d := s.upserts[i].backoff;
        Stream(Max(0.0, s.remaining - d), s.upserts[i := Trying(s.upserts[i].attempt + 1)], s.slept + d)
      else s
  }

  function Run(s: Stream, steps: seq<Step>): Stream
    decreases |steps|
  {
    if steps == [] then s else Run(Next(s, steps[0]), steps[1..])
  }

  /** Upserts in progress: the chunks the stream embeds at once. */
  function Active(us: seq<Upsert>): nat {
    if us == [] then 0 else Active(us[..|us| - 1]) + if us[|us| - 1].Ended? then 0 else 1
  }

  function Sleepers(us: seq<Upsert>): nat {
    if us == [] then 0 else Sleepers(us[..|us| - 1]) + if us[|us| - 1].Sleeping? then 1 else 0
  }

  /** Sleep already begun and not yet charged. */
  function Uncharged(us: seq<Upsert>): real {
    if us == [] then 0.0
    else Uncharged(us[..|us| - 1]) + if us[|us| - 1].Sleeping? then us[|us| - 1].backoff else 0.0
  }

  /** At no point of the run are more than `k` upserts active. */
  predicate AtMost(s: Stream, steps: seq<Step>, k: nat)
    decreases |steps|
  {
    Active(s.upserts) <= k && (steps != [] ==> AtMost(Next(s, steps[0]), steps[1..], k))
  }

  predicate Inv(s: Stream, total: real, k: nat) {
    && s.remaining == Max(0.0, Max(0.0, total) - s.slept)
    && (forall i | 0 <= i < |s.upserts| && s.upserts[i].Sleeping? :: 0.0 < s.upserts[i].backoff <= MAX_SINGLE_BACKOFF)
    && s.slept >= 0.0
    && (k >= 1 ==> s.slept + Uncharged(s.upserts) <= Max(0.0, total) + MAX_SINGLE_BACKOFF * (k - 1) as real)
  }

  lemma {:induction false} SleepersBound(us: seq<Upsert>)
    requires forall i | 0 <= i < |us| && us[i].Sleeping? :: 0.0 < us[i].backoff <= MAX_SINGLE_BACKOFF
    ensures Sleepers(us) <= Active(us)
    ensures 0.0 <= Uncharged(us) <= MAX_SINGLE_BACKOFF * Sleepers(us) as real
  {
    if us != [] {
      SleepersBound(us[..|us| - 1]);
    }
  }

  lemma {:induction false} Replace(us: seq<Upsert>, i: nat, u: Upsert)
    requires i < |us|
    ensures Active(us[i := u]) == Active(us) - (if us[i].Ended? then 0 else 1) + (if u.Ended? then 0 else 1)
    ensures Sleepers(us[i := u]) == Sleepers(us) - (if us[i].Sleeping? then 1 else 0) + (if u.Sleeping? then 1 else 0)
    ensures Uncharged(us[i := u])
         == Uncharged(us) - (if us[i].Sleeping? then us[i].backoff else 0.0) + (if u.Sleeping? then u.backoff else 0.0)
  {
    var front := us[..|us| - 1];
    if i < |front| {
      Replace(front, i, u);
      assert us[i := u][..|us| - 1] == front[i := u];
    } else {
      assert us[i := u][..|us| - 1] == front;
    }
  }

  /** The budget may go below what sleepers still owe, but only by one sleep for every other active upsert. */
  lemma NextKeepsInv(s: Stream, step: Step, total: real, k: nat)
    requires Inv(s, total, k) && Active(s.upserts) <= k
    ensures Inv(Next(s, step), total, k)
  {
    var us := s.upserts;
    match step {
      case Start => assert (us + [Trying(0)])[..|us|] == us;
      case Succeed(i) => if i < |us| { Replace(us, i, Ended); }
      case HardFailure(i) => if i < |us| { Replace(us, i, Ended); }
      case Wake(i) =>
        if i < |us| && us[i].Sleeping? { Replace(us, i, Trying(us[i].attempt + 1)); }
      case Pressure(i) =>
        if i < |us| && us[i].Trying? {
          Replace(us, i, Ended);
          if s.remaining > 0.0 {
            var u := Sleeping(us[i].attempt, Backoff(us[i].attempt, s.remaining));
            Replace(us, i, u);
            SleepersBound(us[i := u]);
            SleepersBound(us);
            SleepersBound(us[i := Ended]);
            OthersSleep(us[i := Ended], k);
          }
        }
    }
  }

  /** With one of `k` places free, what the others owe is at most one sleep each. */
  lemma OthersSleep(us: seq<Upsert>, k: nat)
    requires forall i | 0 <= i < |us| && us[i].Sleeping? :: 0.0 < us[i].backoff <= MAX_SINGLE_BACKOFF
    requires Active(us) + 1 <= k
    ensures Uncharged(us) <= MAX_SINGLE_BACKOFF * (k - 1) as real
  {
    SleepersBound(us);
    assert Sleepers(us) as real <= (k - 1) as real;
  }

  lemma {:induction false} RunKeepsInv(s: Stream, steps: seq<Step>, total: real, k: nat)
    requires Inv(s, total, k) && AtMost(s, steps, k)
    ensures Inv(Run(s, steps), total, k)
    decreases |steps|
  {
    if steps != [] {
      NextKeepsInv(s, steps[0], total, k);
      RunKeepsInv(Next(s, steps[0]), steps[1..], total, k);
    }
  }

  /** However many upserts a stream makes, with at most `k` at a time it sleeps at most its budget and
      one longest backoff for every upsert but one. */
  lemma BackoffBound(total: real, steps: seq<Step>, k: nat)
    requires k >= 1 && AtMost(Create(total), steps, k)
    ensures var s := Run(Create(total), steps);
      s.slept + Uncharged(s.upserts) <= Max(0.0, total) + 16.0 * (k - 1) as real
  {
    RunKeepsInv(Create(total), steps, total, k);
    SleepersBound(Run(Create(total), steps).upserts);
  }

  // ----- when the promised total really is a bound -----

  lemma {:induction false} NoBudgetNoSleep(s: Stream, steps: seq<Step>)
    requires s.remaining == 0.0 && s.slept == 0.0 && forall i | 0 <= i < |s.upserts| :: !s.upserts[i].Sleeping?
    ensures Run(s, steps).slept == 0.0
    decreases |steps|
  {
    if steps != [] {
      NoBudgetNoSleep(Next(s, steps[0]), steps[1..]);
    }
  }

  lemma {:induction false} MoreRoom(s: Stream, steps: seq<Step>, k: nat, m: nat)
    requires AtMost(s, steps, k) && k <= m
    ensures AtMost(s, steps, m)
    decreases |steps|
  {
    if steps != [] {
      MoreRoom(Next(s, steps[0]), steps[1..], k, m);
    }
  }

  /** Two upserts, the first having been throttled `a` times so far. */
  function Two(remaining: real, a: nat, slept: real): Stream {
    Stream(remaining, [Trying(a), Trying(0)], slept)
  }

  lemma ActiveTwo(u: Upsert, v: Upsert)
    ensures Active([u, v]) <= 2
  {
    var one, two := [u], [u, v];
    assert one[..0] == [] && Active(one) <= 1;
    assert two[..1] == one;
  }

  lemma {:induction false} Prepend(s: Stream, step: Step, steps: seq<Step>)
    requires Active(s.upserts) <= 2 && AtMost(Next(s, step), steps, 2)
    ensures AtMost(s, [step] + steps, 2) && Run(s, [step] + steps) == Run(Next(s, step), steps)
  {
    assert ([step] + steps)[1..] == steps;
  }

  /** Both upserts are throttled on the same remaining budget, and it is charged for each only afterwards. */
  lemma SleepTogether(r: real, a: nat, slept: real) returns (steps: seq<Step>)
    requires r > 0.0 && Backoff(a, r) == r
    ensures AtMost(Two(r, a, slept), steps, 2) && Run(Two(r, a, slept), steps).slept > slept + r
  {
    var d := Backoff(0, r);
    var s0 := Two(r, a, slept);
    var s1 := Stream(r, [Sleeping(a, r), Trying(0)], slept);
    var s2 := Stream(r, [Sleeping(a, r), Sleeping(0, d)], slept);
    var s3 := Stream(0.0, [Trying(a + 1), Sleeping(0, d)], slept + r);
    var s4 := Stream(0.0, [Trying(a + 1), Trying(1)], slept + r + d);
    assert Next(s0, Pressure(0)) == s1 && Next(s1, Pressure(1)) == s2;
    assert Next(s2, Wake(0)) == s3 && Next(s3, Wake(1)) == s4;
    ActiveTwo(Trying(a), Trying(0));
    ActiveTwo(Sleeping(a, r), Trying(0));
    ActiveTwo(Sleeping(a, r), Sleeping(0, d));
    ActiveTwo(Trying(a + 1), Sleeping(0, d));
    ActiveTwo(Trying(a + 1), Trying(1));
    Prepend(s3, Wake(1), []);
    Prepend(s2, Wake(0), [Wake(1)] + []);
    Prepend(s1, Pressure(1), [Wake(0)] + ([Wake(1)] + []));
    Prepend(s0, Pressure(0), [Pressure(1)] + ([Wake(0)] + ([Wake(1)] + [])));
    steps := [Pressure(0)] + ([Pressure(1)] + ([Wake(0)] + ([Wake(1)] + [])));
  }

  /** Two upserts can always sleep longer than what is left of the budget. */
  lemma {:induction false} Overspend(r: real, a: nat, slept: real) returns (steps: seq<Step>)
    requires r > 0.0
    ensures AtMost(Two(r, a, slept), steps, 2) && Run(Two(r, a, slept), steps).slept > slept + r
    decreases r.Floor
  {
    var d := Backoff(a, r);
    if d == r {
      steps := SleepTogether(r, a, slept);
    } else {
      var rest := Overspend(r - d, a + 1, slept + d);
      var s1 := Stream(r, [Sleeping(a, d), Trying(0)], slept);
      assert Next(Two(r, a, slept), Pressure(0)) == s1 && Next(s1, Wake(0)) == Two(r - d, a + 1, slept + d);
      ActiveTwo(Trying(a), Trying(0));
      ActiveTwo(Sleeping(a, d), Trying(0));
      Prepend(s1, Wake(0), rest);
      Prepend(Two(r, a, slept), Pressure(0), [Wake(0)] + rest);
      steps := [Pressure(0)] + ([Wake(0)] + rest);
    }
  }

  ghost predicate NeverOverspends(total: real, k: nat) {
    forall steps | AtMost(Create(total), steps, k) :: Run(Create(total), steps).slept <= Max(0.0, total)
  }

  /** The budget bounds the total sleep of every run exactly when chunks are embedded one at a time or it is empty. */
  lemma BudgetBoundsTotal(total: real, k: nat)
    ensures NeverOverspends(total, k) <==> k <= 1 || total <= 0.0
  {
    if k <= 1 || total <= 0.0 {
      forall steps | AtMost(Create(total), steps, k) ensures Run(Create(total), steps).slept <= Max(0.0, total) {
        if total <= 0.0 {
          NoBudgetNoSleep(Create(total), steps);
        } else {
          MoreRoom(Create(total), steps, k, 1);
          RunKeepsInv(Create(total), steps, total, 1);
          SleepersBound(Run(Create(total), steps).upserts);
        }
      }
    } else {
      var steps := Overspend(total, 0, 0.0);
      var one := Stream(total, [Trying(0)], 0.0);
      assert Next(Create(total), Start) == one && Next(one, Start) == Two(total, 0, 0.0);
      Prepend(one, Start, steps);
      Prepend(Create(total), Start, [Start] + steps);
      MoreRoom(Create(total), [Start] + ([Start] + steps), 2, k);
    }
  }

  // ----- the retry loop -----

  datatype Outcome = Ok | WritePressure | OtherError

  datatype Result = Done | PressureError | Error

  class WritePressureBudget {
    var remaining: real

    constructor (totalSeconds: real)
      ensures remaining == Max(0.0, totalSeconds)
    {
      remaining := Max(0.0, totalSeconds);
    }
  }

  function Sum(sleeps: seq<real>): real {
    if sleeps == [] then 0.0 else Sum(sleeps[..|sleeps| - 1]) + sleeps[|sleeps| - 1]
  }

  predicate LeastOf(x: real, a: real, b: real, c: real) { x <= a && x <= b && x <= c && (x == a || x == b || x == c) }

  /** The nth sleep of a call: the least of 2 to the nth, 16 seconds and what is left, taken off that together with what
      others have drained from a shared budget meanwhile. */
  predicate SleptAt(n: nat, sleep: real, before: real, after: real, shared: bool, drained: nat -> real) {
    && before > 0.0 && LeastOf(sleep, Pow2(n), 16.0, before)
    && after == if shared then Max(0.0, Max(0.0, before - drained(n)) - sleep) else before - sleep
  }

  /** The sleeps of one call, and what was left before each and after the last. */
  predicate BacksOff(sleeps: seq<real>, left: seq<real>, shared: bool, drained: nat -> real) {
    && |left| == |sleeps| + 1
    && forall n: nat | n < |sleeps| :: SleptAt(n, sleeps[n], left[n], left[n + 1], shared, drained)
  }

  lemma BackoffIsLeast(n: nat, remaining: real)
    requires remaining > 0.0
    ensures LeastOf(Backoff(n, remaining), Pow2(n), 16.0, remaining)
  {}

  lemma BacksOffOnce(sleeps: seq<real>, left: seq<real>, shared: bool, drained: nat -> real, sleep: real, after: real)
    requires BacksOff(sleeps, left, shared, drained) && SleptAt(|sleeps|, sleep, left[|sleeps|], after, shared, drained)
    ensures BacksOff(sleeps + [sleep], left + [after], shared, drained) && Sum(sleeps + [sleep]) == Sum(sleeps) + sleep
  {
    var (more, rest) := (sleeps + [sleep], left + [after]);
    assert more[..|sleeps|] == sleeps;
    forall n: nat | n < |more| ensures SleptAt(n, more[n], rest[n], rest[n + 1], shared, drained) {
      if n < |sleeps| { assert SleptAt(n, sleeps[n], left[n], left[n + 1], shared, drained); }
    }
  }

  /** Retries one upsert. `tries` is what each call of Milvus answers and `drained` what other upserts of the stream
      take from the shared budget during the n-th sleep; `waited` is the sleep of this call. */
  method UpsertLeadVectors(budget: WritePressureBudget?, tries: nat -> Outcome, drained: nat -> real)
    returns (result: Result, waited: real, attempt: nat, ghost sleeps: seq<real>, ghost left: seq<real>)
    requires budget != null ==> budget.remaining >= 0.0
    requires forall n: nat :: drained(n) >= 0.0
    modifies budget
    ensures 0.0 <= waited <= if budget != null then old(budget.remaining) else MAX_UNBOUND_TOTAL
    ensures budget != null ==> 0.0 <= budget.remaining <= old(budget.remaining) - waited
    ensures BacksOff(sleeps, left, budget != null, drained) && |sleeps| == attempt && waited == Sum(sleeps)
    ensures left[0] == if budget != null then old(budget.remaining) else 60.0
    ensures budget != null ==> left[attempt] == budget.remaining
    ensures forall n: nat | n < attempt :: tries(n) == WritePressure
    ensures result == Done <==> tries(attempt) == Ok
    ensures result == Error <==> tries(attempt) == OtherError
    ensures result == PressureError ==> (if budget != null then budget.remaining else MAX_UNBOUND_TOTAL - waited) <= 0.0
  {
    attempt, waited, sleeps := 0, 0.0, [];
    left := [if budget != null then budget.remaining else MAX_UNBOUND_TOTAL];
    var callWaited := 0.0;
    while true
      invariant 0.0 <= waited && callWaited == if budget == null then waited else 0.0
      invariant budget == null ==> waited <= MAX_UNBOUND_TOTAL
      invariant budget != null ==> 0.0 <= budget.remaining <= old(budget.remaining) - waited
      invariant forall n: nat | n < attempt :: tries(n) == WritePressure
      invariant BacksOff(sleeps, left, budget != null, drained) && |sleeps| == attempt && waited == Sum(sleeps)
      invariant left[0] == if budget != null then old(budget.remaining) else 60.0
      invariant left[attempt] == if budget != null then budget.remaining else MAX_UNBOUND_TOTAL - callWaited
      decreases (if budget != null then budget.remaining else MAX_UNBOUND_TOTAL - callWaited) > 0.0,
                (if budget != null then budget.remaining else MAX_UNBOUND_TOTAL - callWaited).Floor
    {
      match tries(attempt)
      case Ok => return Done, waited, attempt, sleeps, left;
      case OtherError => return Error, waited, attempt, sleeps, left;
      case WritePressure =>
        var remaining := if budget != null then budget.remaining else MAX_UNBOUND_TOTAL - callWaited;
        if remaining <= 0.0 { return PressureError, waited, attempt, sleeps, left; }
        var backoff := Backoff(attempt, remaining);
        waited := waited + backoff;
        if budget != null {
          budget.remaining := Max(0.0, Max(0.0, budget.remaining - drained(attempt)) - backoff);
        } else {
          callWaited := callWaited + backoff;
        }
        ghost var after := if budget != null then budget.remaining else MAX_UNBOUND_TOTAL - callWaited;
        BackoffIsLeast(attempt, remaining);
        BacksOffOnce(sleeps, left, budget != null, drained, backoff, after);
        sleeps, left := sleeps + [backoff], left + [after];
        attempt := attempt + 1;
    }
  }
}
