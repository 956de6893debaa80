/** When the bounded search for the next fire gives up, and when it is right to. */
module CronLookahead {
  import opened Calendar
  import opened Cron

  function MaxDays(m: int): int { if m == 2 then 29 else if m in {4, 6, 9, 11} then 30 else 31 }

  /** The day fields name no date of any year. */
  predicate Unsatisfiable(spec: CronSpec) {
    && spec.domRestricted && !spec.dowRestricted
    && forall m, d | m in spec.months && d in spec.doms :: d > MaxDays(m)
  }

  /** The day fields name the 29th of February and no other date. */
  predicate Feb29Only(spec: CronSpec) {
    && spec.domRestricted && !spec.dowRestricted
    && 2 in spec.months && 29 in spec.doms
    && forall m, d | m in spec.months && d in spec.doms :: (m == 2 && d == 29) || d > MaxDays(m)
  }

  predicate LaterToday(spec: CronSpec, tod: int) { exists u | tod < u < DAY :: TimeOk(spec, u) }

  predicate EarlierToday(spec: CronSpec, tod: int) { exists u | 0 <= u <= tod :: TimeOk(spec, u) }

  /** The window after minute `m` lies between the leap days on either side of the skipped century `y`,
      apart from end days whose remaining minutes do not fire. */
  predicate InGap(spec: CronSpec, m: nat, y: int) {
    && SkippedCentury(y)
    && (m / DAY > LeapDay(y - 4) || (m / DAY == LeapDay(y - 4) && !LaterToday(spec, m % DAY)))
    && (m / DAY + 1461 < LeapDay(y + 4) || (m / DAY + 1461 == LeapDay(y + 4) && !EarlierToday(spec, m % DAY)))
  }

  ghost predicate CenturyGap(spec: CronSpec, m: nat) { exists y :: InGap(spec, m, y) }

  // ----- days -----

  /** Every date but the 29th of February comes round within a year and a day. */
  lemma NextDate(n: nat, m: int, d: int) returns (k: nat)
    requires 1 <= m <= 12 && 1 <= d <= MaxDays(m) && !(m == 2 && d == 29)
    ensures n < k <= n + 366 && DateOf(k).month == m && DateOf(k).day == d
  {
    var y := DayWithinYear(n);
    YearLength(y);
    WithinYear(y, m, d);
    WithinYear(y + 1, m, d);
    y := if Ordinal(y, m, d) > n then y else y + 1;
    k := Ordinal(y, m, d);
    DateOfOrdinal(Date(y, m, d));
  }

  lemma Mod7(n: nat, j: nat)
    ensures (n + j) % 7 == (n % 7 + j) % 7
  {}

  lemma WeekdayComes(n: nat, w: int) returns (j: nat)
    requires 0 <= w < 7
    ensures j < 7 && CronWeekday(n + j) == w
  {
    var a := CronWeekday(n);
    j := (w - a) % 7;
    Mod7(n, j);
  }

  lemma {:induction false} FirstWeek(n: nat, j: nat)
    requires DateOf(n).day == 1 && j < 7
    ensures DateOf(n + j) == Date(DateOf(n).year, DateOf(n).month, 1 + j)
  {
    if j > 0 { FirstWeek(n, j - 1); }
  }

  lemma Pick(s: set<int>, lo: int, hi: int) returns (x: int)
    requires Within(s, lo, hi)
    ensures x in s && lo <= x <= hi
  {
    if forall y :: y !in s { assert false; }
    x :| x in s;
  }

  lemma NextWeekday(spec: CronSpec, n: nat) returns (k: nat)
    requires WellFormed(spec) && spec.dowRestricted
    ensures n < k <= n + 372 && DayOk(spec, k)
  {
    var m := Pick(spec.months, 1, 12);
    var w := Pick(spec.dows, 0, 6);
    k := NextDate(n, m, 1);
    var j := WeekdayComes(k, w);
    FirstWeek(k, j);
    k := k + j;
  }

  /** Any day part that allows more than the 29th of February matches some day of the next 372. */
  lemma NextDay372(spec: CronSpec, n: nat) returns (k: nat)
    requires WellFormed(spec) && !Unsatisfiable(spec) && !Feb29Only(spec)
    ensures n < k <= n + 372 && DayOk(spec, k)
  {
    if spec.dowRestricted {
      k := NextWeekday(spec, n);
    } else if spec.domRestricted {
      var m, d :| m in spec.months && d in spec.doms && d <= MaxDays(m) && !(m == 2 && d == 29);
      k := NextDate(n, m, d);
    } else {
      var m := Pick(spec.months, 1, 12);
      k := NextDate(n, m, 1);
    }
  }

  lemma LeapDaysMatch(spec: CronSpec, n: nat)
    requires Feb29Only(spec)
    ensures DayOk(spec, n) <==> DateOf(n).month == 2 && DateOf(n).day == 29
  {
    var d := DateOf(n);
    assert d.day <= MaxDays(d.month);
  }

  /** No date at all satisfies the day fields exactly when each asked-for day is too late for each month. */
  lemma UnsatisfiableMeaning(spec: CronSpec)
    requires WellFormed(spec)
    ensures Unsatisfiable(spec) <==> forall n: nat :: !DayOk(spec, n)
  {
    if Unsatisfiable(spec) {
    } else if Feb29Only(spec) {
      DateOfOrdinal(Date(4, 2, 29));
      LeapDaysMatch(spec, Ordinal(4, 2, 29));
      assert DayOk(spec, Ordinal(4, 2, 29));
    } else {
      var k := NextDay372(spec, 0);
    }
  }

  // ----- the window -----

  lemma SomeTime(spec: CronSpec) returns (u: int)
    requires WellFormed(spec)
    ensures 0 <= u < DAY && TimeOk(spec, u)
  {
    var h := Pick(spec.hours, 0, 23);
    var k := Pick(spec.minutes, 0, 59);
    u := h * 60 + k;
  }

  lemma MinuteOfDay(n: nat, u: nat)
    requires u < DAY
    ensures (n * DAY + u) / DAY == n && (n * DAY + u) % DAY == u
  {}

  lemma FiresOn(spec: CronSpec, m: nat, n: nat, u: nat)
    requires u < DAY && DayOk(spec, n) && TimeOk(spec, u)
    requires m < n * DAY + u <= m + MAX_LOOKAHEAD
    ensures NextFire(spec, m).Some?
  {
    MinuteOfDay(n, u);
    assert Matches(spec, n * DAY + u);
    NextMatchIsLeast(spec, m + 1, m + MAX_LOOKAHEAD);
  }

  lemma InnerDayFires(spec: CronSpec, m: nat, n: nat)
    requires WellFormed(spec) && DayOk(spec, n) && m / DAY < n < m / DAY + 1461
    ensures NextFire(spec, m).Some?
  {
    var u := SomeTime(spec);
    FiresOn(spec, m, n, u);
  }

  lemma FirstDayFires(spec: CronSpec, m: nat)
    requires DayOk(spec, m / DAY) && LaterToday(spec, m % DAY)
    ensures NextFire(spec, m).Some?
  {
    var u :| m % DAY < u < DAY && TimeOk(spec, u);
    FiresOn(spec, m, m / DAY, u);
  }

  lemma LastDayFires(spec: CronSpec, m: nat)
    requires DayOk(spec, m / DAY + 1461) && EarlierToday(spec, m % DAY)
    ensures NextFire(spec, m).Some?
  {
    var u :| 0 <= u <= m % DAY && TimeOk(spec, u);
    FiresOn(spec, m, m / DAY + 1461, u);
  }

  /** The search can only succeed on an inner day of the window or on the right part of an end day. */
  lemma FireIsInWindow(spec: CronSpec, m: nat) returns (n: nat)
    requires NextFire(spec, m).Some?
    ensures DayOk(spec, n) && m / DAY <= n <= m / DAY + 1461
    ensures n == m / DAY ==> LaterToday(spec, m % DAY)
    ensures n == m / DAY + 1461 ==> EarlierToday(spec, m % DAY)
  {
    NextMatchIsLeast(spec, m + 1, m + MAX_LOOKAHEAD);
    var t := NextFire(spec, m).value;
    n := t / DAY;
    assert TimeOk(spec, t % DAY);
    if n == m / DAY { assert m % DAY < t % DAY < DAY; }
    if n == m / DAY + 1461 { assert 0 <= t % DAY <= m % DAY; }
  }

  /** The two partial end days together make up a whole one. */
  lemma EndDaysCover(spec: CronSpec, tod: int)
    requires WellFormed(spec)
    ensures LaterToday(spec, tod) || EarlierToday(spec, tod)
  {
    var u := SomeTime(spec);
  }

  // ----- leap days in the window -----

  lemma NoLeapYearBetween(y: int, z: int)
    requires SkippedCentury(y) && y - 4 < z < y + 4
    ensures !Leap(z)
  {
    Multiples(y);
  }

  lemma OnlyTheseLeapDays(n: nat, y: int)
    requires SkippedCentury(y) && LeapDay(y - 4) < n < LeapDay(y + 4)
    ensures !(DateOf(n).month == 2 && DateOf(n).day == 29)
  {
    if DateOf(n).month == 2 && DateOf(n).day == 29 {
      LeapDayIsLeapDay(n);
      EightYears(y);
      var z := DateOf(n).year;
      LeapDaysAscend(y - 4, z);
      LeapDaysAscend(z, y + 4);
      NoLeapYearBetween(y, z);
    }
  }

  lemma GapIsSilent(spec: CronSpec, m: nat, y: int)
    requires WellFormed(spec) && Feb29Only(spec) && InGap(spec, m, y)
    ensures NextFire(spec, m).None?
  {
    if NextFire(spec, m).Some? {
      var n := FireIsInWindow(spec, m);
      LeapDaysMatch(spec, n);
      EightYears(y);
      if LeapDay(y - 4) < n < LeapDay(y + 4) { OnlyTheseLeapDays(n, y); }
    }
  }

  lemma LeapDayMatches(spec: CronSpec, y: int)
    requires Feb29Only(spec) && Leap(y) && y >= 1
    ensures LeapDay(y) >= 0 && DayOk(spec, LeapDay(y))
  {
    DateOfOrdinal(Date(y, 2, 29));
    LeapDaysMatch(spec, LeapDay(y));
  }

  lemma SkippedQuarterIsCentury(q: int)
    requires q >= 1 && !Leap(4 * q)
    ensures SkippedCentury(4 * q)
  {}

  lemma OnLeapDay(spec: CronSpec, m: nat, q: int)
    requires WellFormed(spec) && Feb29Only(spec) && q >= 1 && Leap(4 * q) && m / DAY == LeapDay(4 * q)
    requires !LaterToday(spec, m % DAY)
    ensures NextFire(spec, m).None? ==> InGap(spec, m, 4 * (q + 1))
  {
    EndDaysCover(spec, m % DAY);
    LeapBeforeMarch(4 * q);
    FourYears(q);
    if Leap(4 * (q + 1)) {
      LeapBeforeMarch(4 * (q + 1));
      LeapDayMatches(spec, 4 * (q + 1));
      LastDayFires(spec, m);
    } else {
      SkippedQuarterIsCentury(q + 1);
      EightYears(4 * (q + 1));
    }
  }

  /** When the coming fourth year is a leap year the search fails only on its leap day itself. */
  lemma LeapCycleFires(spec: CronSpec, m: nat, q: int)
    requires WellFormed(spec) && Feb29Only(spec) && q >= 1 && Leap(4 * q)
    requires MarchFirst(4 * (q - 1)) <= m / DAY < MarchFirst(4 * q)
    ensures NextFire(spec, m).None? ==> m / DAY == LeapDay(4 * q) && InGap(spec, m, 4 * (q + 1))
  {
    FourYears(q - 1);
    LeapBeforeMarch(4 * q);
    LeapDayMatches(spec, 4 * q);
    if m / DAY < LeapDay(4 * q) {
      InnerDayFires(spec, m, LeapDay(4 * q));
    } else if LaterToday(spec, m % DAY) {
      FirstDayFires(spec, m);
    } else {
      OnLeapDay(spec, m, q);
    }
  }

  lemma SkippedCycleGap(spec: CronSpec, m: nat, q: int)
    requires WellFormed(spec) && Feb29Only(spec) && q >= 1 && !Leap(4 * q)
    requires MarchFirst(4 * (q - 1)) <= m / DAY < MarchFirst(4 * q)
    ensures NextFire(spec, m).None? ==> InGap(spec, m, 4 * q)
  {
    SkippedQuarterIsCentury(q);
    EightYears(4 * q);
    LeapBeforeMarch(4 * (q - 1));
    LeapDayMatches(spec, 4 * (q + 1));
    if m / DAY + 1461 == LeapDay(4 * q + 4) && EarlierToday(spec, m % DAY) { LastDayFires(spec, m); }
  }

  lemma Feb29Exact(spec: CronSpec, m: nat)
    requires WellFormed(spec) && Feb29Only(spec)
    ensures NextFire(spec, m).None? <==> CenturyGap(spec, m)
  {
    if CenturyGap(spec, m) {
      var y :| InGap(spec, m, y);
      GapIsSilent(spec, m, y);
    } else {
      var q := MarchCycle(m / DAY);
      if Leap(4 * q) {
        LeapCycleFires(spec, m, q);
      } else {
        SkippedCycleGap(spec, m, q);
      }
    }
  }

  /** The search gives up exactly when no date satisfies the day fields, or when only the 29th of February does
      and the window lies between the two leap days around a skipped century. */
  lemma LookaheadExact(spec: CronSpec, m: nat)
    requires WellFormed(spec)
    ensures NextFire(spec, m).None? <==> Unsatisfiable(spec) || (Feb29Only(spec) && CenturyGap(spec, m))
  {
    if Unsatisfiable(spec) {
      UnsatisfiableMeaning(spec);
      if NextFire(spec, m).Some? { var n := FireIsInWindow(spec, m); }
    } else if Feb29Only(spec) {
      Feb29Exact(spec, m);
    } else {
      var k := NextDay372(spec, m / DAY);
      InnerDayFires(spec, m, k);
    }
  }

  /** Away from skipped centuries giving up means that no date will ever do. */
  lemma LookaheadSuffices(spec: CronSpec, m: nat)
    requires WellFormed(spec)
    requires forall y | SkippedCentury(y) :: !(m / DAY < MarchFirst(y) <= m / DAY + 1461)
    ensures NextFire(spec, m).None? <==> forall n: nat :: !DayOk(spec, n)
  {
    LookaheadExact(spec, m);
    UnsatisfiableMeaning(spec);
    if CenturyGap(spec, m) {
      var y :| InGap(spec, m, y);
      EightYears(y);
    }
  }

  lemma GapAt2100(spec: CronSpec, m: nat)
    requires m / DAY == MarchFirst(2096)
    ensures InGap(spec, m, 2100)
  {
    EightYears(2100);
    LeapBeforeMarch(2096);
  }

  lemma LeapMidnight(spec: CronSpec, y: int)
    requires Feb29Only(spec) && TimeOk(spec, 0) && Leap(y) && y >= 1
    ensures LeapDay(y) >= 0 && Matches(spec, LeapDay(y) * DAY)
  {
    LeapDayMatches(spec, y);
    MinuteOfDay(LeapDay(y), 0);
  }

  /** Midnight on every 29th of February: on 2096-03-01 the search reports no fire, though 2104 has one. */
  lemma LookaheadFallsShort(spec: CronSpec)
    requires spec == CronSpec({0}, {0}, {29}, {2}, {0, 1, 2, 3, 4, 5, 6}, true, false)
    ensures NextFire(spec, MarchFirst(2096) * DAY).None? && Matches(spec, LeapDay(2104) * DAY)
  {
    MinuteOfDay(MarchFirst(2096), 0);
    GapAt2100(spec, MarchFirst(2096) * DAY);
    assert Feb29Only(spec);
    GapIsSilent(spec, MarchFirst(2096) * DAY, 2100);
    LeapMidnight(spec, 2104);
  }
}
