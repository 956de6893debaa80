/** Five-field cron expressions: parsing, matching, the next fire and how far ahead it has to be looked for. */
module Cron {
  import opened Calendar
  import opened Division
  import opened Options

  // ----- fields -----

  datatype Base = Star | Single(value: int) | Range(first: int, last: int)

  /** One comma-separated item, with the step after its slash if it has one. */
  datatype Part = Part(base: Base, step: Option<int>)

  function First(p: Part, lo: int): int {
    match p.base case Star => lo case Single(v) => v case Range(a, _) => a
  }

  function Last(p: Part, hi: int): int {
    match p.base case Star => hi case Single(v) => v case Range(_, b) => b
  }

  function StepOf(p: Part): int { if p.step.Some? then p.step.value else 1 }

  predicate OnStep(x: int, k: int) { k > 0 && x % k == 0 }

  predicate Listed(p: Part, lo: int, hi: int, v: int) {
    First(p, lo) <= v <= Last(p, hi) && OnStep(v - First(p, lo), StepOf(p))
  }

  /** Weekdays may be written 0..7 and 7 is Sunday; elsewhere only the values a range lists must be in bounds. */
  predicate PartOk(p: Part, lo: int, hi: int, dow: bool) {
    && StepOf(p) > 0
    && First(p, lo) <= Last(p, hi)
    && (dow ==> 0 <= First(p, lo) <= 7 && 0 <= Last(p, hi) <= 7)
    && (!dow ==> forall v | First(p, lo) <= v <= Last(p, hi) && Listed(p, lo, hi, v) :: lo <= v <= hi)
  }

  predicate FieldOk(parts: seq<Part>, lo: int, hi: int, dow: bool) {
    parts != [] && forall i | 0 <= i < |parts| :: PartOk(parts[i], lo, hi, dow)
  }

  function Fold(v: int, dow: bool): int { if dow && v == 7 then 0 else v }

  ghost predicate PartHas(p: Part, lo: int, hi: int, dow: bool, x: int) {
    exists v :: Listed(p, lo, hi, v) && Fold(v, dow) == x
  }

  ghost predicate FieldHas(parts: seq<Part>, lo: int, hi: int, dow: bool, x: int) {
    exists i :: 0 <= i < |parts| && PartHas(parts[i], lo, hi, dow, x)
  }

  /** None stands for the ValueError of a malformed field. */
  method ParseField(parts: seq<Part>, lo: int, hi: int, dow: bool) returns (r: Option<(set<int>, bool)>)
    requires lo <= hi && (dow ==> lo == 0 && hi == 6)
    ensures r.Some? <==> FieldOk(parts, lo, hi, dow)
    ensures r.Some? ==> forall x :: x in r.value.0 <==> FieldHas(parts, lo, hi, dow, x)
    ensures r.Some? ==> Within(r.value.0, lo, hi)
    ensures r.Some? ==> (r.value.1 <==> parts != [Part(Star, None)])
  {
    if parts == [] { return None; }
    var restricted := parts != [Part(Star, None)];
    var values: set<int> := {};
    for i := 0 to |parts|
      invariant forall k | 0 <= k < i :: PartOk(parts[k], lo, hi, dow)
      invariant forall x | x in values :: lo <= x <= hi
      invariant forall x :: x in values <==> exists k :: 0 <= k < i && PartHas(parts[k], lo, hi, dow, x)
      invariant i > 0 ==> values != {}
    {
      var more := ParsePart(parts[i], lo, hi, dow);
      if more.None? { return None; }
      values := values + more.value;
    }
    return Some((values, restricted));
  }

  method ParsePart(p: Part, lo: int, hi: int, dow: bool) returns (r: Option<set<int>>)
    requires lo <= hi && (dow ==> lo == 0 && hi == 6)
    ensures r.Some? <==> PartOk(p, lo, hi, dow)
    ensures r.Some? ==> Within(r.value, lo, hi) && forall x :: x in r.value <==> PartHas(p, lo, hi, dow, x)
  {
    if StepOf(p) <= 0 { return None; }
    if dow && !(0 <= First(p, lo) <= 7 && 0 <= Last(p, hi) <= 7) { return None; }
    if First(p, lo) > Last(p, hi) { return None; }
    r := ListValues(p, lo, hi, dow);
    if r.Some? {
      assert Listed(p, lo, hi, First(p, lo));
      assert Fold(First(p, lo), dow) in r.value;
    }
  }

  method ListValues(p: Part, lo: int, hi: int, dow: bool) returns (r: Option<set<int>>)
    requires StepOf(p) > 0 && First(p, lo) <= Last(p, hi) && lo <= hi && (dow ==> lo == 0 && hi == 6)
    requires dow ==> 0 <= First(p, lo) && Last(p, hi) <= 7
    ensures r.Some? <==> PartOk(p, lo, hi, dow)
    ensures r.Some? ==> forall x | x in r.value :: lo <= x <= hi && PartHas(p, lo, hi, dow, x)
    ensures r.Some? ==> forall v | Listed(p, lo, hi, v) :: Fold(v, dow) in r.value
  {
    var values: set<int> := {};
    var first, last, step := First(p, lo), Last(p, hi), StepOf(p);
    var value := first;
    while value <= last
      invariant first <= value && OnStep(value - first, step)
      invariant !dow ==> forall v | Listed(p, lo, hi, v) && v < value :: lo <= v <= hi
      invariant forall x | x in values :: lo <= x <= hi && PartHas(p, lo, hi, dow, x)
      invariant forall v | Listed(p, lo, hi, v) && v < value :: Fold(v, dow) in values
      decreases last + 1 - value
    {
      assert Listed(p, lo, hi, value);
      if !dow && !(lo <= value <= hi) { return None; }
      forall v | Listed(p, lo, hi, v) && v < value + step ensures v <= value {
        if v > value { NothingBetween(value - first, v - first, step); }
      }
      values := values + {Fold(value, dow)};
      OneStepOn(value - first, step);
      value := value + step;
    }
    return Some(values);
  }

  lemma OneStepOn(x: int, k: int)
    requires k > 0 && OnStep(x, k)
    ensures OnStep(x + k, k)
  {
    ModMultiple(x / k + 1, k, 0);
    assert x == (x / k) * k;
  }

  lemma NothingBetween(x: int, y: int, k: int)
    requires k > 0 && OnStep(x, k) && x < y < x + k
    ensures !OnStep(y, k)
  {
    assert x == (x / k) * k;
    ModMultiple(x / k, k, y - x);
  }

  // ----- expressions -----

  datatype CronSpec = CronSpec(
    minutes: set<int>, hours: set<int>, doms: set<int>, months: set<int>, dows: set<int>,
    domRestricted: bool, dowRestricted: bool)

  predicate Within(s: set<int>, lo: int, hi: int) { s != {} && forall x | x in s :: lo <= x <= hi }

  /** What parsing guarantees of a specification. */
  predicate WellFormed(spec: CronSpec) {
    && Within(spec.minutes, 0, 59) && Within(spec.hours, 0, 23) && Within(spec.doms, 1, 31)
    && Within(spec.months, 1, 12) && Within(spec.dows, 0, 6)
  }

  method ParseCron(fields: seq<seq<Part>>) returns (r: Option<CronSpec>)
    ensures r.Some? <==>
      |fields| == 5 && FieldOk(fields[0], 0, 59, false) && FieldOk(fields[1], 0, 23, false)
      && FieldOk(fields[2], 1, 31, false) && FieldOk(fields[3], 1, 12, false) && FieldOk(fields[4], 0, 6, true)
    ensures r.Some? ==> WellFormed(r.value)
    ensures r.Some? ==> (forall x :: x in r.value.minutes <==> FieldHas(fields[0], 0, 59, false, x))
    ensures r.Some? ==> (forall x :: x in r.value.hours <==> FieldHas(fields[1], 0, 23, false, x))
    ensures r.Some? ==> (forall x :: x in r.value.doms <==> FieldHas(fields[2], 1, 31, false, x))
    ensures r.Some? ==> (forall x :: x in r.value.months <==> FieldHas(fields[3], 1, 12, false, x))
    ensures r.Some? ==> (forall x :: x in r.value.dows <==> FieldHas(fields[4], 0, 6, true, x))
    ensures r.Some? ==> (r.value.domRestricted <==> fields[2] != [Part(Star, None)])
    ensures r.Some? ==> (r.value.dowRestricted <==> fields[4] != [Part(Star, None)])
  {
    if |fields| != 5 { return None; }
    var minutes := ParseField(fields[0], 0, 59, false);
    var hours := ParseField(fields[1], 0, 23, false);
    var doms := ParseField(fields[2], 1, 31, false);
    var months := ParseField(fields[3], 1, 12, false);
    var dows := ParseField(fields[4], 0, 6, true);
    if minutes.None? || hours.None? || doms.None? || months.None? || dows.None? { return None; }
    return Some(CronSpec(minutes.value.0, hours.value.0, doms.value.0, months.value.0, dows.value.0,
                         doms.value.1, dows.value.1));
  }

  // ----- matching -----

  const DAY := 1440
  const MICROS_PER_MINUTE := 60_000_000
  const MAX_LOOKAHEAD_DAYS := 1461
  const MAX_LOOKAHEAD := 1461 * 1440

  /** The day part of the match: day of month and weekday are alternatives when both are restricted. */
  predicate DayMatches(spec: CronSpec, d: Date, weekday: int) {
    && d.month in spec.months
    && if spec.domRestricted && spec.dowRestricted then d.day in spec.doms || weekday in spec.dows
       else if spec.domRestricted then d.day in spec.doms
       else if spec.dowRestricted then weekday in spec.dows
       else true
  }

  predicate DayOk(spec: CronSpec, n: nat) { DayMatches(spec, DateOf(n), CronWeekday(n)) }

  predicate TimeOk(spec: CronSpec, tod: int) { tod % 60 in spec.minutes && tod / 60 in spec.hours }

  /** Minutes are counted from midnight of 0001-01-01, UTC. */
  predicate Matches(spec: CronSpec, t: nat) { TimeOk(spec, t % DAY) && DayOk(spec, t / DAY) }

  /** The minute `m` past hour `h` of a day fires when both are listed and the day is one of the expression's. */
  lemma MatchesAt(spec: CronSpec, n: nat, h: nat, m: nat)
    requires h < 24 && m < 60
    ensures Matches(spec, n * 1440 + h * 60 + m) <==> m in spec.minutes && h in spec.hours && DayOk(spec, n)
  {
    ModMultiple(n, 1440, h * 60 + m);
    ModMultiple(h, 60, m);
    assert n * 1440 + h * 60 + m == n * 1440 + (h * 60 + m);
  }

  /** Weekdays alone: exactly the days so many days after a Sunday. Days of the month alone: exactly those dates. Both:
      the days of either. Neither: every day of the months. */
  lemma DayRules(spec: CronSpec, n: nat, sunday: nat)
    requires DateOf(sunday) == Date(2023, 12, 31)
    ensures DateOf(n).month !in spec.months ==> !DayOk(spec, n)
    ensures DateOf(n).month in spec.months && spec.dowRestricted && !spec.domRestricted ==>
      (DayOk(spec, n) <==> (n - sunday) % 7 in spec.dows)
    ensures DateOf(n).month in spec.months && spec.domRestricted && !spec.dowRestricted ==>
      (DayOk(spec, n) <==> DateOf(n).day in spec.doms)
    ensures spec.domRestricted && spec.dowRestricted ==>
      (DayOk(spec, n) <==> DayOk(spec.(domRestricted := false), n) || DayOk(spec.(dowRestricted := false), n))
    ensures DateOf(n).month in spec.months && !spec.domRestricted && !spec.dowRestricted ==> DayOk(spec, n)
  {
    KnownWeekdays(sunday);
    WeekdayCounts(n);
    WeekdaySince(n, sunday);
  }

  /** What an item lists: its first value and every step from there to its last. */
  lemma ListedMeaning(p: Part, lo: int, hi: int, v: int)
    requires StepOf(p) > 0
    ensures p.base == Star ==>
      (Listed(p, lo, hi, v) <==> v <= hi && exists k: nat :: v == lo + k * StepOf(p))
    ensures p.base.Single? ==> (Listed(p, lo, hi, v) <==> v == p.base.value)
    ensures p.base.Range? ==>
      (Listed(p, lo, hi, v) <==> v <= p.base.last && exists k: nat :: v == p.base.first + k * StepOf(p))
  {
    var d, s := v - First(p, lo), StepOf(p);
    if Listed(p, lo, hi, v) {
      assert d == (d / s) * s && d / s >= 0;
      var k: nat := d / s;
      assert v == First(p, lo) + k * s;
    }
    forall k: nat | v == First(p, lo) + k * s ensures OnStep(d, s) && d >= 0 { ModMultiple(k, s, 0); }
    if p.base.Single? && v == p.base.value { ModMultiple(0, s, 0); }
  }

  /** Which items parse: any star, a value in bounds, and a range whose every listed value is in bounds, though its end
      need not be; weekdays are 0 to 7 at both ends. */
  lemma PartOkMeaning(p: Part, lo: int, hi: int, dow: bool)
    requires lo <= hi && (dow ==> lo == 0 && hi == 6)
    ensures PartOk(p, lo, hi, dow) ==> p.step.None? || p.step.value > 0
    ensures p.step.None? || p.step.value > 0 ==>
      match p.base
      case Star => PartOk(p, lo, hi, dow)
      case Single(v) => PartOk(p, lo, hi, dow) <==> lo <= v <= if dow then 7 else hi
      case Range(a, b) =>
        PartOk(p, lo, hi, dow) <==>
          a <= b && if dow then 0 <= a && b <= 7 else forall v | Listed(p, lo, hi, v) :: lo <= v <= hi
  {
    var s := StepOf(p);
    if s > 0 && p.base.Single? {
      ModMultiple(0, s, 0);
      assert Listed(p, lo, hi, p.base.value);
    }
  }

  /** Sunday is 0, and may be listed as 7. */
  lemma SundayTwice(p: Part, x: int)
    requires 0 <= x <= 6
    ensures PartHas(p, 0, 6, true, x) <==> Listed(p, 0, 6, x) || (x == 0 && Listed(p, 0, 6, 7))
  {
    if Listed(p, 0, 6, x) { assert Fold(x, true) == x; }
    if x == 0 && Listed(p, 0, 6, 7) { assert Fold(7, true) == 0; }
  }

  function NextMatch(spec: CronSpec, t: nat, limit: int): Option<nat>
    decreases limit - t
  {
    if t > limit then None else if Matches(spec, t) then Some(t) else NextMatch(spec, t + 1, limit)
  }

  /** The next fire after minute `m`, as far as the lookahead reaches. */
  function NextFire(spec: CronSpec, m: nat): Option<nat> { NextMatch(spec, m + 1, m + MAX_LOOKAHEAD) }

  lemma {:induction false} NextMatchIsLeast(spec: CronSpec, t: nat, limit: int)
    ensures var r := NextMatch(spec, t, limit);
      && (r.Some? ==> t <= r.value <= limit && Matches(spec, r.value))
      && (r.Some? ==> forall u: nat | t <= u < r.value :: !Matches(spec, u))
      && (r.None? ==> forall u: nat | t <= u <= limit :: !Matches(spec, u))
    decreases limit - t
  {
    if t <= limit && !Matches(spec, t) {
      NextMatchIsLeast(spec, t + 1, limit);
    }
  }

  /** Steps minute by minute from the first whole minute after `after`, an instant in microseconds. */
  method CronNext(spec: CronSpec, after: nat) returns (r: Option<nat>)
    ensures r == NextFire(spec, after / MICROS_PER_MINUTE)
    ensures r.Some? ==> after < r.value * MICROS_PER_MINUTE && Matches(spec, r.value)
    ensures r.Some? ==> forall u: nat | after < u * MICROS_PER_MINUTE && u < r.value :: !Matches(spec, u)
  {
    var t := (after - after % MICROS_PER_MINUTE) + MICROS_PER_MINUTE;
    var limit := after + MAX_LOOKAHEAD_DAYS * DAY * MICROS_PER_MINUTE;
    ghost var m := after / MICROS_PER_MINUTE;
    ghost var k := m + 1;
    while t <= limit
      invariant t == k * MICROS_PER_MINUTE && k > m
      invariant NextMatch(spec, k, m + MAX_LOOKAHEAD) == NextFire(spec, m)
      decreases limit - t
    {
      assert t / MICROS_PER_MINUTE == k;
      if Matches(spec, t / MICROS_PER_MINUTE) {
        NextMatchIsLeast(spec, m + 1, m + MAX_LOOKAHEAD);
        return Some(t / MICROS_PER_MINUTE);
      }
      t, k := t + MICROS_PER_MINUTE, k + 1;
    }
    return None;
  }

  /** At midnight on Monday 2024-01-01 the next fire of nine o'clock on Mondays is that morning. */
  lemma NineOnMonday(spec: CronSpec, n: nat)
    requires spec.minutes == {0} && spec.hours == {9} && 1 in spec.months && spec.dows == {1}
    requires spec.dowRestricted && !spec.domRestricted && DateOf(n) == Date(2024, 1, 1)
    ensures NextFire(spec, n * 1440) == Some(n * 1440 + 9 * 60)
  {
    KnownWeekdays(n);
    WeekdayCounts(n);
    FirstOfDay(spec, n, 9, 0);
  }

  /** An expression of one hour and one minute fires then on each of its days, and not before. */
  lemma FirstOfDay(spec: CronSpec, n: nat, h: nat, m: nat)
    requires h < 24 && m < 60 && h + m > 0 && spec.minutes == {m} && spec.hours == {h} && DayOk(spec, n)
    ensures NextFire(spec, n * 1440) == Some(n * 1440 + h * 60 + m)
  {
    MatchesAt(spec, n, h, m);
    forall u: nat | n * 1440 < u < n * 1440 + h * 60 + m ensures !Matches(spec, u) {
      var v: nat := u - n * 1440;
      MatchesAt(spec, n, v / 60, v % 60);
      assert v / 60 < h || (v / 60 == h && v % 60 < m);
    }
    NextMatchIsLeast(spec, n * 1440 + 1, n * 1440 + MAX_LOOKAHEAD);
  }
}
