/** The rate guard on new recurring schedules: what sampling the next 32 fires can and cannot rule out. */
module CronRate {
  import opened Calendar
  import opened Cron
  import opened CronLookahead
  import opened Options

  const MIN_INTERVAL_SAMPLES := 32
  const DEFAULT_FLOOR := 15

  /** The first `k` fires after minute `m`, or as many as the lookahead finds. */
  function FireList(spec: CronSpec, m: nat, k: nat): (s: seq<nat>)
    ensures |s| <= k
    decreases k
  {
    if k == 0 then []
    else
      var next := NextFire(spec, m);
      if next.None? then [] else [next.value] + FireList(spec, next.value, k - 1)
  }

  function Gap(s: seq<nat>, i: int): int
    requires 0 <= i < |s| - 1
  {
    s[i + 1] as int - s[i] as int
  }

  predicate MinGap(s: seq<nat>, g: int) {
    && (exists i | 0 <= i < |s| - 1 :: Gap(s, i) == g)
    && (forall i | 0 <= i < |s| - 1 :: g <= Gap(s, i))
  }

  lemma WholeMinute(t: nat)
    ensures t * MICROS_PER_MINUTE / MICROS_PER_MINUTE == t
  {}

  lemma FireListStep(spec: CronSpec, m: nat, k: nat)
    requires k > 0
    ensures var next := NextFire(spec, m);
      FireList(spec, m, k) == if next.None? then [] else [next.value] + FireList(spec, next.value, k - 1)
  {}

  lemma TakeFirst(s: seq<nat>, x: nat, t: seq<nat>)
    ensures s + ([x] + t) == s + [x] + t
  {}

  method SampleFires(spec: CronSpec, after: nat, n: nat) returns (fires: seq<nat>)
    ensures fires == FireList(spec, after / MICROS_PER_MINUTE, n)
  {
    fires := [];
    var cursor: nat, i: nat := after, 0;
    ghost var m := after / MICROS_PER_MINUTE;
    ghost var all := FireList(spec, m, n);
    ghost var rest := all;
    while i < n
      invariant i <= n && m == cursor / MICROS_PER_MINUTE
      invariant all == fires + rest && rest == FireList(spec, m, n - i)
    {
      var next := CronNext(spec, cursor);
      FireListStep(spec, m, n - i);
      if next.None? { return; }
      WholeMinute(next.value);
      TakeFirst(fires, next.value, FireList(spec, next.value, n - i - 1));
      fires, cursor, i, m := fires + [next.value], next.value * MICROS_PER_MINUTE, i + 1, next.value;
      rest := FireList(spec, m, n - i);
    }
  }

  method MinInterval(spec: CronSpec, after: nat, samples: nat) returns (r: Option<int>)
    ensures var s := FireList(spec, after / MICROS_PER_MINUTE, if samples < 2 then 2 else samples);
      && (r.None? <==> |s| < 2)
      && (r.Some? ==> MinGap(s, r.value))
  {
    var fires := SampleFires(spec, after, if samples < 2 then 2 else samples);
    if |fires| < 2 { return None; }
    var least := LeastGap(fires);
    return Some(least);
  }

  method LeastGap(fires: seq<nat>) returns (least: int)
    requires |fires| >= 2
    ensures MinGap(fires, least)
  {
    least := Gap(fires, 0);
    for j := 1 to |fires| - 1
      invariant exists i | 0 <= i < |fires| - 1 :: Gap(fires, i) == least
      invariant forall i | 0 <= i < j :: least <= Gap(fires, i)
    {
      if Gap(fires, j) < least { least := Gap(fires, j); }
    }
  }

  predicate TooOften(s: seq<nat>, floor: int) { exists i | 0 <= i < |s| - 1 :: Gap(s, i) < floor }

  predicate Accepted(spec: CronSpec, m: nat, floor: int) {
    !TooOften(FireList(spec, m, MIN_INTERVAL_SAMPLES), floor) && NextFire(spec, m).Some?
  }

  datatype Verdict = FiresTooOften(tightest: int) | NoUpcomingRun | Scheduled(nextRun: nat)

  /** The two checks a new recurring schedule has to pass. */
  method CheckCron(spec: CronSpec, now: nat, floor: int) returns (v: Verdict)
    ensures v.Scheduled? <==> Accepted(spec, now / MICROS_PER_MINUTE, floor)
    ensures v.Scheduled? ==> Some(v.nextRun) == NextFire(spec, now / MICROS_PER_MINUTE)
    ensures v.FiresTooOften? ==> v.tightest < floor
    ensures v.FiresTooOften? ==> MinGap(FireList(spec, now / MICROS_PER_MINUTE, MIN_INTERVAL_SAMPLES), v.tightest)
  {
    var tightest := MinInterval(spec, now, MIN_INTERVAL_SAMPLES);
    if tightest.Some? && tightest.value < floor { return FiresTooOften(tightest.value); }
    var next := CronNext(spec, now);
    if next.None? { return NoUpcomingRun; }
    return Scheduled(next.value);
  }

  // ----- the sampled fires -----

  function Before(m: nat, s: seq<nat>, i: nat): nat
    requires i <= |s|
  {
    if i == 0 then m else s[i - 1]
  }

  predicate Chained(spec: CronSpec, m: nat, s: seq<nat>) {
    forall i | 0 <= i < |s| :: NextFire(spec, Before(m, s, i)) == Some(s[i])
  }

  lemma ChainedFrom(spec: CronSpec, m: nat, t: nat, rest: seq<nat>)
    requires NextFire(spec, m) == Some(t) && Chained(spec, t, rest)
    ensures Chained(spec, m, [t] + rest) && Before(m, [t] + rest, |rest| + 1) == Before(t, rest, |rest|)
  {
    var s := [t] + rest;
    forall i | 0 <= i < |s| ensures NextFire(spec, Before(m, s, i)) == Some(s[i]) {
      if i > 0 { assert Before(m, s, i) == Before(t, rest, i - 1); }
    }
  }

  lemma {:induction false} FiresAreChained(spec: CronSpec, m: nat, k: nat)
    ensures var s := FireList(spec, m, k);
      Chained(spec, m, s) && (|s| < k ==> NextFire(spec, Before(m, s, |s|)).None?)
    decreases k
  {
    if k > 0 && NextFire(spec, m).Some? {
      var t := NextFire(spec, m).value;
      FiresAreChained(spec, t, k - 1);
      ChainedFrom(spec, m, t, FireList(spec, t, k - 1));
    }
  }

  predicate Neighbours(spec: CronSpec, t: nat, u: nat) {
    t < u && Matches(spec, u) && forall v: nat | t < v < u :: !Matches(spec, v)
  }

  lemma NextIsNeighbour(spec: CronSpec, t: nat)
    ensures NextFire(spec, t).Some? ==> Neighbours(spec, t, NextFire(spec, t).value)
  {
    NextMatchIsLeast(spec, t + 1, t + MAX_LOOKAHEAD);
  }

  lemma FireFollows(spec: CronSpec, m: nat, s: seq<nat>, i: nat)
    requires Chained(spec, m, s) && i < |s|
    ensures Neighbours(spec, Before(m, s, i), s[i])
  {
    NextIsNeighbour(spec, Before(m, s, i));
  }

  lemma GapIsReal(spec: CronSpec, m: nat, s: seq<nat>, i: nat)
    requires Chained(spec, m, s) && i < |s| - 1
    ensures Matches(spec, s[i]) && Neighbours(spec, s[i], s[i + 1])
  {
    FireFollows(spec, m, s, i);
    FireFollows(spec, m, s, i + 1);
  }

  /** A rejection is justified: the reported interval lies between two fires with none in between. */
  lemma RejectionIsJustified(spec: CronSpec, m: nat, k: nat, g: int) returns (t: nat)
    requires MinGap(FireList(spec, m, k), g)
    ensures g > 0 && Matches(spec, t) && Neighbours(spec, t, t + g)
  {
    var s := FireList(spec, m, k);
    FiresAreChained(spec, m, k);
    var i :| 0 <= i < |s| - 1 && Gap(s, i) == g;
    GapIsReal(spec, m, s, i);
    t := s[i];
  }

  lemma {:induction false} Ascending(spec: CronSpec, m: nat, s: seq<nat>, i: nat, j: nat)
    requires Chained(spec, m, s) && i < j < |s|
    ensures s[i] < s[j]
    decreases j
  {
    FireFollows(spec, m, s, j);
    if i < j - 1 { Ascending(spec, m, s, i, j - 1); }
  }

  predicate Increasing(s: seq<nat>) { forall i, j | 0 <= i < j < |s| :: s[i] < s[j] }

  lemma AllAscending(spec: CronSpec, m: nat, s: seq<nat>)
    requires Chained(spec, m, s)
    ensures Increasing(s)
  {
    forall i, j | 0 <= i < j < |s| ensures s[i] < s[j] { Ascending(spec, m, s, i, j); }
  }

  lemma CloseSamples(s: seq<nat>, i: nat, j: nat, floor: int)
    requires Increasing(s) && i < |s| && j < |s| && s[i] < s[j] < s[i] + floor
    ensures TooOften(s, floor)
  {
    assert i < j;
    assert Gap(s, i) < floor;
  }

  /** Every match up to a sample is among the samples. */
  lemma {:induction false} NoneSkipped(spec: CronSpec, m: nat, s: seq<nat>, j: nat, t: nat) returns (i: nat)
    requires Chained(spec, m, s) && j < |s| && m < t <= s[j] && Matches(spec, t)
    ensures i <= j && s[i] == t
    decreases j
  {
    FireFollows(spec, m, s, j);
    i := j;
    if t < s[j] { i := NoneSkipped(spec, m, s, j - 1, t); }
  }

  /** Two fires closer than the floor make the samples around them too close as well. */
  lemma CloseFiresShow(spec: CronSpec, m: nat, s: seq<nat>, t: nat, u: nat, floor: int)
    requires Chained(spec, m, s) && m < t < u && u - t < floor && Matches(spec, t) && Matches(spec, u)
    requires |s| > 0 && u <= s[|s| - 1]
    ensures TooOften(s, floor)
  {
    var i := NoneSkipped(spec, m, s, |s| - 1, t);
    var j := NoneSkipped(spec, m, s, |s| - 1, u);
    AllAscending(spec, m, s);
    CloseSamples(s, i, j, floor);
  }

  // ----- fires in one hour -----

  predicate Tight(spec: CronSpec, floor: int) {
    exists a, b :: a in spec.minutes && b in spec.minutes && a < b < a + floor
  }

  lemma HoursAndMinutes(h: int, k: int)
    requires 0 <= k < 60
    ensures (60 * h + k) / 60 == h && (60 * h + k) % 60 == k
  {}

  lemma DaysAndHours(q: int, h: int)
    requires 0 <= h < 24
    ensures (24 * q + h) / 24 == q && (24 * q + h) % 24 == h
  {}

  lemma Clock(t: nat)
    ensures t % DAY % 60 == t % 60 && t % DAY / 60 == t / 60 % 24 && t / DAY == t / 60 / 24
  {
    var q, r := t / DAY, t % DAY;
    var h, k := r / 60, r % 60;
    assert t == 60 * (24 * q + h) + k;
    HoursAndMinutes(24 * q + h, k);
    DaysAndHours(q, h);
  }

  /** In an hour that fires at all, every minute of the minute field fires. */
  lemma WholeHourMatches(spec: CronSpec, t: nat, a: nat)
    requires Matches(spec, t) && a in spec.minutes && a < 60
    ensures Matches(spec, t / 60 * 60 + a)
  {
    Clock(t);
    Clock(t / 60 * 60 + a);
  }

  lemma {:induction false} Spread(s: seq<nat>, i: nat, j: nat)
    requires !TooOften(s, 2) && i <= j < |s|
    ensures s[j] >= s[i] + 2 * (j - i)
  {
    if i < j {
      Spread(s, i, j - 1);
      assert Gap(s, j - 1) >= 2;
    }
  }

  lemma {:induction false} FirstBeyond(s: seq<nat>, limit: nat, k: nat) returns (j: nat)
    requires k < |s| && s[k] >= limit
    ensures j <= k && s[j] >= limit && (j > 0 ==> s[j - 1] < limit)
  {
    if k > 0 && s[k - 1] >= limit { j := FirstBeyond(s, limit, k - 1); } else { j := k; }
  }

  lemma WholeHourShows(spec: CronSpec, m: nat, s: seq<nat>, t: nat, floor: int)
    requires WellFormed(spec) && Tight(spec, floor) && Chained(spec, m, s) && |s| > 0 && Matches(spec, t)
    requires m < t / 60 * 60 && forall u: nat | u / 60 == t / 60 && Matches(spec, u) :: u <= s[|s| - 1]
    ensures TooOften(s, floor)
  {
    var a, b :| a in spec.minutes && b in spec.minutes && a < b < a + floor;
    var h := t / 60 * 60;
    WholeHourMatches(spec, t, a);
    WholeHourMatches(spec, t, b);
    CloseFiresShow(spec, m, s, h + a, h + b, floor);
  }

  /** The samples run on from the first one's minute past the same minute of the next firing hour. */
  lemma SamplesReach(s: seq<nat>) returns (j: nat)
    requires !TooOften(s, 2) && |s| == MIN_INTERVAL_SAMPLES
    ensures 0 < j < |s| && s[j] / 60 > s[0] / 60 && s[j] / 60 * 60 + s[0] % 60 < s[31]
  {
    Spread(s, 0, 31);
    j := FirstBeyond(s, s[0] / 60 * 60 + 60, 31);
    Spread(s, 0, j - 1);
    Spread(s, j, 31);
  }

  /** A full set of samples shows two of any pair of minutes that are too close. */
  lemma ManySamplesShow(spec: CronSpec, m: nat, floor: int)
    requires WellFormed(spec) && Tight(spec, floor)
    requires |FireList(spec, m, MIN_INTERVAL_SAMPLES)| == MIN_INTERVAL_SAMPLES
    ensures TooOften(FireList(spec, m, MIN_INTERVAL_SAMPLES), floor)
  {
    var s := FireList(spec, m, MIN_INTERVAL_SAMPLES);
    FiresAreChained(spec, m, MIN_INTERVAL_SAMPLES);
    if !TooOften(s, floor) {
      var a, b :| a in spec.minutes && b in spec.minutes && a < b < a + floor;
      FireFollows(spec, m, s, 0);
      Clock(s[0]);
      var j := SamplesReach(s);
      if a >= s[0] % 60 {
        PairShows(spec, m, s, 0, a, b, floor);
      } else {
        PairShows(spec, m, s, j, a, if b < s[0] % 60 then b else s[0] % 60, floor);
      }
    }
  }

  lemma PairShows(spec: CronSpec, m: nat, s: seq<nat>, j: nat, a: int, b: int, floor: int)
    requires WellFormed(spec) && Chained(spec, m, s) && j < |s| && a in spec.minutes && b in spec.minutes
    requires a < b < a + floor && m < s[j] / 60 * 60 + a && s[j] / 60 * 60 + b <= s[|s| - 1]
    ensures TooOften(s, floor)
  {
    FireFollows(spec, m, s, j);
    WholeHourMatches(spec, s[j], a);
    WholeHourMatches(spec, s[j], b);
    CloseFiresShow(spec, m, s, s[j] / 60 * 60 + a, s[j] / 60 * 60 + b, floor);
  }

  /** Unless only the 29th of February fires, the guard turns down every expression with two minutes closer
      than the floor, whatever the instant it is asked at. */
  lemma GuardIsSound(spec: CronSpec, m: nat, floor: int)
    requires WellFormed(spec) && !Feb29Only(spec) && Accepted(spec, m, floor)
    ensures !Tight(spec, floor)
  {
    if Tight(spec, floor) {
      var s := FireList(spec, m, MIN_INTERVAL_SAMPLES);
      FiresAreChained(spec, m, MIN_INTERVAL_SAMPLES);
      LookaheadExact(spec, m);
      LookaheadExact(spec, Before(m, s, |s|));
      ManySamplesShow(spec, m, floor);
    }
  }

  // ----- the one way past the guard -----

  predicate RestSpaced(spec: CronSpec, k: int, floor: int) {
    && (exists a | a in spec.minutes :: a > k)
    && (forall a, b | a in spec.minutes && b in spec.minutes && k < a < b :: a + floor <= b)
  }

  predicate NoLaterHour(spec: CronSpec, h: int) { h in spec.hours && forall g | g in spec.hours :: g <= h }

  /** Minute `m` is in the last firing hour before the skipped century `y`, with well-spaced fires still to come. */
  predicate InLastHour(spec: CronSpec, m: nat, floor: int, y: int) {
    && SkippedCentury(y) && m / DAY == LeapDay(y - 4)
    && NoLaterHour(spec, m % DAY / 60) && RestSpaced(spec, m % 60, floor)
  }

  ghost predicate LastHourBeforeGap(spec: CronSpec, m: nat, floor: int) { exists y :: InLastHour(spec, m, floor, y) }

  lemma SameDay(t: nat, u: nat)
    requires t / 60 == u / 60
    ensures t / DAY == u / DAY && t % DAY / 60 == u % DAY / 60 && t % DAY - u % DAY == t - u
  {
    Clock(t);
    Clock(u);
  }

  /** After the last fire of a day no match is left in its hour. */
  lemma LastInHour(spec: CronSpec, t: nat, u: nat)
    requires !LaterToday(spec, t % DAY) && u / 60 == t / 60 && Matches(spec, u)
    ensures u <= t
  {
    SameDay(t, u);
    assert TimeOk(spec, u % DAY);
  }

  lemma LastIsInLastHour(spec: CronSpec, t: nat)
    requires WellFormed(spec) && Matches(spec, t) && !LaterToday(spec, t % DAY)
    ensures NoLaterHour(spec, t % DAY / 60)
  {
    forall g | g in spec.hours ensures g <= t % DAY / 60 {
      if g > t % DAY / 60 { assert TimeOk(spec, g * 60 + t % DAY % 60); }
    }
  }

  lemma GapFollowsLeapDay(spec: CronSpec, t: nat, y: int)
    requires Feb29Only(spec) && InGap(spec, t, y) && Matches(spec, t)
    ensures t / DAY == LeapDay(y - 4) && !LaterToday(spec, t % DAY)
  {
    LeapDaysMatch(spec, t / DAY);
    EightYears(y);
    if t / DAY > LeapDay(y - 4) { OnlyTheseLeapDays(t / DAY, y); }
  }

  lemma RestIsSpaced(spec: CronSpec, m: nat, s: seq<nat>, floor: int)
    requires WellFormed(spec) && Chained(spec, m, s) && |s| > 0 && !TooOften(s, floor)
    requires var t := s[|s| - 1]; Matches(spec, t) && m < t && m / 60 == t / 60 && !LaterToday(spec, t % DAY)
    ensures RestSpaced(spec, m % 60, floor)
  {
    var t := s[|s| - 1];
    Clock(t);
    assert t % 60 in spec.minutes && t % 60 > m % 60;
    forall a, b | a in spec.minutes && b in spec.minutes && m % 60 < a < b ensures a + floor <= b {
      var h := m / 60 * 60;
      WholeHourMatches(spec, t, a);
      WholeHourMatches(spec, t, b);
      LastInHour(spec, t, h + b);
      if b < a + floor { CloseFiresShow(spec, m, s, h + a, h + b, floor); }
    }
  }

  lemma TruncatedInLastHour(spec: CronSpec, m: nat, s: seq<nat>, floor: int, y: int)
    requires WellFormed(spec) && Feb29Only(spec) && Tight(spec, floor) && Chained(spec, m, s) && |s| > 0
    requires InGap(spec, s[|s| - 1], y) && !TooOften(s, floor)
    ensures InLastHour(spec, m, floor, y)
  {
    var t := s[|s| - 1];
    LastMatches(spec, m, s);
    GapFollowsLeapDay(spec, t, y);
    forall u: nat | u / 60 == t / 60 && Matches(spec, u) ensures u <= t { LastInHour(spec, t, u); }
    if m < t / 60 * 60 { WholeHourShows(spec, m, s, t, floor); }
    assert m / 60 == t / 60;
    SameDay(m, t);
    LastIsInLastHour(spec, t);
    RestIsSpaced(spec, m, s, floor);
  }

  lemma LastMatches(spec: CronSpec, m: nat, s: seq<nat>)
    requires Chained(spec, m, s) && |s| > 0
    ensures m < s[|s| - 1] && Matches(spec, s[|s| - 1])
  {
    FireFollows(spec, m, s, |s| - 1);
    FireFollows(spec, m, s, 0);
    if |s| > 1 { Ascending(spec, m, s, 0, |s| - 1); }
  }

  lemma AcceptedInLastHour(spec: CronSpec, m: nat, floor: int)
    requires WellFormed(spec) && Tight(spec, floor) && Accepted(spec, m, floor)
    ensures Feb29Only(spec) && LastHourBeforeGap(spec, m, floor)
  {
    if !Feb29Only(spec) { GuardIsSound(spec, m, floor); }
    var s := FireList(spec, m, MIN_INTERVAL_SAMPLES);
    FiresAreChained(spec, m, MIN_INTERVAL_SAMPLES);
    if |s| == MIN_INTERVAL_SAMPLES { ManySamplesShow(spec, m, floor); }
    Feb29Exact(spec, s[|s| - 1]);
    var y :| InGap(spec, s[|s| - 1], y);
    TruncatedInLastHour(spec, m, s, floor, y);
  }

  lemma StaysInHour(spec: CronSpec, m: nat, floor: int, y: int, t: nat)
    requires WellFormed(spec) && Feb29Only(spec) && InLastHour(spec, m, floor, y) && t / 60 == m / 60
    ensures NextFire(spec, t).Some? ==> NextFire(spec, t).value / 60 == m / 60
  {
    SameDay(t, m);
    EightYears(y);
    if LaterToday(spec, t % DAY) {
      var u :| t % DAY < u < DAY && TimeOk(spec, u);
      LeapDayMatches(spec, y - 4);
      var v := t / DAY * DAY + u;
      MinuteOfDay(t / DAY, u);
      assert Matches(spec, v);
      Clock(v);
      Clock(t);
      NextIsNeighbour(spec, t);
      FiresOn(spec, t, t / DAY, u);
    } else {
      assert InGap(spec, t, y);
      GapIsSilent(spec, t, y);
    }
  }

  predicate InHour(spec: CronSpec, m: nat, t: nat) { t > m && t / 60 == m / 60 && Matches(spec, t) }

  lemma NextInHour(spec: CronSpec, m: nat, floor: int, y: int, t: nat)
    requires WellFormed(spec) && Feb29Only(spec) && InLastHour(spec, m, floor, y) && t / 60 == m / 60 && t >= m
    ensures NextFire(spec, t).Some? ==> InHour(spec, m, NextFire(spec, t).value)
  {
    StaysInHour(spec, m, floor, y, t);
    NextIsNeighbour(spec, t);
  }

  lemma {:induction false} AllInHour(spec: CronSpec, m: nat, floor: int, y: int, s: seq<nat>, i: nat)
    requires WellFormed(spec) && Feb29Only(spec) && InLastHour(spec, m, floor, y) && Chained(spec, m, s) && i < |s|
    ensures InHour(spec, m, s[i])
    decreases i
  {
    if i > 0 { AllInHour(spec, m, floor, y, s, i - 1); }
    NextInHour(spec, m, floor, y, Before(m, s, i));
  }

  lemma LastHourSpaced(spec: CronSpec, m: nat, floor: int, y: int, s: seq<nat>)
    requires WellFormed(spec) && Feb29Only(spec) && InLastHour(spec, m, floor, y) && Chained(spec, m, s)
    ensures !TooOften(s, floor)
  {
    forall i | 0 <= i < |s| - 1 ensures Gap(s, i) >= floor {
      AllInHour(spec, m, floor, y, s, i);
      AllInHour(spec, m, floor, y, s, i + 1);
      Ascending(spec, m, s, i, i + 1);
      Clock(s[i]);
      Clock(s[i + 1]);
    }
  }

  lemma LaterInLastHour(spec: CronSpec, m: nat, floor: int)
    requires WellFormed(spec) && NoLaterHour(spec, m % DAY / 60) && RestSpaced(spec, m % 60, floor)
    ensures LaterToday(spec, m % DAY)
  {
    var a :| a in spec.minutes && a > m % 60;
    Clock(m);
    assert TimeOk(spec, m % DAY / 60 * 60 + a);
  }

  lemma LastHourAccepted(spec: CronSpec, m: nat, floor: int, y: int)
    requires WellFormed(spec) && Feb29Only(spec) && InLastHour(spec, m, floor, y)
    ensures Accepted(spec, m, floor)
  {
    EightYears(y);
    LeapDayMatches(spec, y - 4);
    LaterInLastHour(spec, m, floor);
    FirstDayFires(spec, m);
    FiresAreChained(spec, m, MIN_INTERVAL_SAMPLES);
    LastHourSpaced(spec, m, floor, y, FireList(spec, m, MIN_INTERVAL_SAMPLES));
  }

  /** Exactly when an expression with two minutes closer than the floor gets past the guard. */
  lemma GuardExact(spec: CronSpec, m: nat, floor: int)
    requires WellFormed(spec) && Tight(spec, floor)
    ensures Accepted(spec, m, floor) <==> Feb29Only(spec) && LastHourBeforeGap(spec, m, floor)
  {
    if Accepted(spec, m, floor) {
      AcceptedInLastHour(spec, m, floor);
    } else if Feb29Only(spec) && LastHourBeforeGap(spec, m, floor) {
      var y :| InLastHour(spec, m, floor, y);
      LastHourAccepted(spec, m, floor, y);
    }
  }

  const EVERY_DAY: set<int> := {0, 1, 2, 3, 4, 5, 6}

  /** Any well-spaced rest of the hour after midnight of that day is accepted, whatever the minutes before. */
  lemma LastHourOf2096(spec: CronSpec, k: nat)
    requires WellFormed(spec) && Feb29Only(spec) && spec.hours == {0} && k < 60 && RestSpaced(spec, k, DEFAULT_FLOOR)
    ensures Accepted(spec, LeapDay(2096) * DAY + k, DEFAULT_FLOOR)
  {
    var m := LeapDay(2096) * DAY + k;
    EightYears(2100);
    MinuteOfDay(LeapDay(2096), k);
    Clock(m);
    HoursAndMinutes(0, k);
    assert InLastHour(spec, m, DEFAULT_FLOOR, 2100);
    LastHourAccepted(spec, m, DEFAULT_FLOOR, 2100);
  }

  /** Minutes 0, 1 and 30 of the 29th of February: a minute into that day in 2096 the guard lets two through. */
  lemma GuardLetsThrough(spec: CronSpec)
    requires spec == CronSpec({0, 1, 30}, {0}, {29}, {2}, EVERY_DAY, true, false)
    ensures Tight(spec, DEFAULT_FLOOR) && Accepted(spec, LeapDay(2096) * DAY + 1, DEFAULT_FLOOR)
  {
    assert 0 in spec.minutes && 1 in spec.minutes && 30 in spec.minutes;
    LastHourOf2096(spec, 1);
  }

  // ----- at most four an hour -----

  function Quarter(s: set<int>, lo: int, b: int): set<int> { set x | x in s && (x - lo) / DEFAULT_FLOOR == b }

  predicate Spaced(s: set<int>) { forall x, y | x in s && y in s && x < y :: x + DEFAULT_FLOOR <= y }

  lemma OneAQuarter(s: set<int>, lo: int, b: int)
    requires Spaced(s)
    ensures |Quarter(s, lo, b)| <= 1
  {
    var q := Quarter(s, lo, b);
    if q != {} {
      var x :| x in q;
      forall y | y in q ensures y == x {}
      assert q == {x};
    }
  }

  lemma WhichQuarter(x: int)
    requires 0 <= x < 60
    ensures x / DEFAULT_FLOOR in {0, 1, 2, 3}
  {}

  lemma SumOfFour(a: set<int>, b: set<int>, c: set<int>, d: set<int>)
    ensures |a + b + c + d| <= |a| + |b| + |c| + |d|
  {
    assert |a + b| <= |a| + |b| && |a + b + c| <= |a + b| + |c|;
  }

  lemma FourAnHour(s: set<int>, lo: int)
    requires Spaced(s) && forall x | x in s :: lo <= x < lo + 60
    ensures |s| <= 4
  {
    forall x | x in s ensures x in Quarter(s, lo, 0) + Quarter(s, lo, 1) + Quarter(s, lo, 2) + Quarter(s, lo, 3) {
      WhichQuarter(x - lo);
    }
    OneAQuarter(s, lo, 0);
    OneAQuarter(s, lo, 1);
    OneAQuarter(s, lo, 2);
    OneAQuarter(s, lo, 3);
    SumOfFour(Quarter(s, lo, 0), Quarter(s, lo, 1), Quarter(s, lo, 2), Quarter(s, lo, 3));
    assert s == Quarter(s, lo, 0) + Quarter(s, lo, 1) + Quarter(s, lo, 2) + Quarter(s, lo, 3);
  }

  function FiresInHour(spec: CronSpec, h: nat): set<nat> { set t: nat | h * 60 <= t < h * 60 + 60 && Matches(spec, t) }

  function Shifted(s: set<int>, k: int): set<int> { set x | x in s :: k + x }

  lemma SomeElement<T>(s: set<T>) returns (x: T)
    requires s != {}
    ensures x in s
  {
    x :| x in s;
  }

  lemma {:induction false} ShiftedSize(s: set<int>, k: int)
    ensures |Shifted(s, k)| == |s|
  {
    if s != {} {
      var x := SomeElement(s);
      ShiftedSize(s - {x}, k);
      forall y | y in Shifted(s, k) ensures y in Shifted(s - {x}, k) + {k + x} {
        var z :| z in s && y == k + z;
        if z != x { assert z in s - {x}; }
      }
      assert Shifted(s, k) == Shifted(s - {x}, k) + {k + x};
    }
  }

  lemma MinuteOfFire(spec: CronSpec, h: nat, u: nat)
    requires u in FiresInHour(spec, h)
    ensures u - h * 60 in spec.minutes
  {
    Clock(u);
    HoursAndMinutes(h, u - h * 60);
  }

  /** An hour that fires at all fires once for every minute of the minute field. */
  lemma FiringHour(spec: CronSpec, h: nat, t: nat)
    requires WellFormed(spec) && t in FiresInHour(spec, h)
    ensures |FiresInHour(spec, h)| == |spec.minutes|
  {
    var lo, fires := h * 60, FiresInHour(spec, h);
    HoursAndMinutes(h, t - lo);
    forall y | y in Shifted(spec.minutes, lo) ensures y in fires {
      var a :| a in spec.minutes && y == lo + a;
      WholeHourMatches(spec, t, a);
    }
    forall u | u in fires ensures u in Shifted(spec.minutes, lo) {
      MinuteOfFire(spec, h, u);
      assert u == lo + (u - lo);
    }
    assert fires == Shifted(spec.minutes, lo);
    ShiftedSize(spec.minutes, lo);
  }

  lemma HourSize(spec: CronSpec, h: nat)
    requires WellFormed(spec)
    ensures |FiresInHour(spec, h)| == 0 || |FiresInHour(spec, h)| == |spec.minutes|
  {
    if FiresInHour(spec, h) != {} {
      var t := SomeElement(FiresInHour(spec, h));
      FiringHour(spec, h, t);
    }
  }

  predicate FourAtMost(spec: CronSpec, h: nat) { |FiresInHour(spec, h)| <= 4 }

  /** For an accepted expression four fires an hour is the same as four minutes in the field. */
  lemma FourMinutes(spec: CronSpec, m: nat)
    requires WellFormed(spec) && NextFire(spec, m).Some?
    ensures (forall h: nat :: FourAtMost(spec, h)) <==> |spec.minutes| <= 4
  {
    NextIsNeighbour(spec, m);
    var t := NextFire(spec, m).value;
    FiringHour(spec, t / 60, t);
    if |spec.minutes| <= 4 {
      forall h: nat ensures FourAtMost(spec, h) { HourSize(spec, h); }
    } else {
      assert !FourAtMost(spec, t / 60);
    }
  }

  /** With the default floor an accepted expression fires at most four times in any clock hour, with one exception:
      more than four minutes of the 29th of February, asked for in the last firing hour before a gap. */
  lemma AtMostFourAnHour(spec: CronSpec, m: nat)
    requires WellFormed(spec)
    ensures Accepted(spec, m, DEFAULT_FLOOR) && !(forall h: nat :: FourAtMost(spec, h)) <==>
      Feb29Only(spec) && LastHourBeforeGap(spec, m, DEFAULT_FLOOR) && |spec.minutes| > 4
  {
    if Accepted(spec, m, DEFAULT_FLOOR) {
      FourMinutes(spec, m);
      if |spec.minutes| > 4 {
        if !Tight(spec, DEFAULT_FLOOR) { FourAnHour(spec.minutes, 0); }
        GuardExact(spec, m, DEFAULT_FLOOR);
      }
    } else if Feb29Only(spec) && LastHourBeforeGap(spec, m, DEFAULT_FLOOR) {
      var y :| InLastHour(spec, m, DEFAULT_FLOOR, y);
      LastHourAccepted(spec, m, DEFAULT_FLOOR, y);
    }
  }

  lemma SixMinutes()
    ensures var s: set<int> := {0, 1, 2, 3, 4, 30}; |s| == 6
  {
    var s: set<int> := {0, 1, 2, 3, 4};
    assert s + {30} == {0, 1, 2, 3, 4, 30};
  }

  /** Minutes 0 to 4 and 30 of the 29th of February, asked for at minute 5 of that day in 2096: six fires an hour. */
  lemma SixAnHour(spec: CronSpec)
    requires spec == CronSpec({0, 1, 2, 3, 4, 30}, {0}, {29}, {2}, EVERY_DAY, true, false)
    ensures Accepted(spec, LeapDay(2096) * DAY + 5, DEFAULT_FLOOR)
    ensures |FiresInHour(spec, LeapDay(2096) * 24)| == 6
  {
    assert 30 in spec.minutes;
    LastHourOf2096(spec, 5);
    assert TimeOk(spec, 0) by { assert 0 in spec.minutes && 0 in spec.hours; }
    LeapMidnight(spec, 2096);
    FiringHour(spec, LeapDay(2096) * 24, LeapDay(2096) * DAY);
    SixMinutes();
  }
}
