/** The proleptic Gregorian calendar: day numbers from 0001-01-01, a Monday, and the dates they stand for. */
module Calendar {

  datatype Date = Date(year: int, month: int, day: int)

  predicate Leap(y: int) { y % 4 == 0 && (y % 100 != 0 || y % 400 == 0) }

  function DaysInMonth(y: int, m: int): (n: int)
    requires 1 <= m <= 12
    ensures 28 <= n <= 31
  {
    if m == 2 then (if Leap(y) then 29 else 28)
    else if m in {4, 6, 9, 11} then 30
    else 31
  }

  predicate ValidDate(d: Date) { d.year >= 1 && 1 <= d.month <= 12 && 1 <= d.day <= DaysInMonth(d.year, d.month) }

  function NextDay(d: Date): (e: Date)
    requires ValidDate(d)
    ensures ValidDate(e)
  {
    if d.day < DaysInMonth(d.year, d.month) then Date(d.year, d.month, d.day + 1)
    else if d.month < 12 then Date(d.year, d.month + 1, 1)
    else Date(d.year + 1, 1, 1)
  }

  /** The date `n` days after 0001-01-01. */
  function DateOf(n: nat): (d: Date)
    ensures ValidDate(d)
  {
    if n == 0 then Date(1, 1, 1) else NextDay(DateOf(n - 1))
  }

  function DaysBeforeYear(y: int): int { 365 * (y - 1) + (y - 1) / 4 - (y - 1) / 100 + (y - 1) / 400 }

  function DaysBeforeMonth(y: int, m: int): int
    requires 1 <= m <= 12
  {
    [0, 31, 59, 90, 120, 151, 181, 212, 243, 273, 304, 334][m - 1] + if m > 2 && Leap(y) then 1 else 0
  }

  /** The day number of a date, in closed form. */
  function Ordinal(y: int, m: int, d: int): int
    requires 1 <= m <= 12
  {
    DaysBeforeYear(y) + DaysBeforeMonth(y, m) + d - 1
  }

  lemma Divides4(y: int)
    ensures y / 4 == (y - 1) / 4 + if y % 4 == 0 then 1 else 0
  {}

  lemma Divides100(y: int)
    ensures y / 100 == (y - 1) / 100 + if y % 100 == 0 then 1 else 0
  {}

  lemma Divides400(y: int)
    ensures y / 400 == (y - 1) / 400 + if y % 400 == 0 then 1 else 0
  {}

  lemma Multiples(y: int)
    ensures (y % 400 == 0 ==> y % 100 == 0) && (y % 100 == 0 ==> y % 4 == 0)
  {
    assert y / 100 / 4 == y / 400 && y / 4 / 25 == y / 100;
    if y % 400 == 0 { assert y / 100 == 4 * (y / 400); }
    if y % 100 == 0 { assert y / 4 == 25 * (y / 100); }
  }

  lemma YearLength(y: int)
    ensures DaysBeforeYear(y + 1) == DaysBeforeYear(y) + 365 + if Leap(y) then 1 else 0
  {
    Divides4(y);
    Divides100(y);
    Divides400(y);
    Multiples(y);
  }

  lemma MonthLength(y: int, m: int)
    requires 1 <= m <= 12
    ensures m < 12 ==> DaysBeforeMonth(y, m + 1) == DaysBeforeMonth(y, m) + DaysInMonth(y, m)
    ensures m == 12 ==> DaysBeforeMonth(y, m) + DaysInMonth(y, m) == 365 + if Leap(y) then 1 else 0
  {}

  /** Long and short months alternate to July and again from August; February is short of both. */
  lemma KnuckleRule(y: int, m: int)
    requires 1 <= m <= 12 && m != 2
    ensures DaysInMonth(y, m) == if m <= 7 then 30 + m % 2 else 31 - m % 2
  {}

  lemma OrdinalOfNextDay(d: Date)
    requires ValidDate(d)
    ensures var e := NextDay(d); Ordinal(e.year, e.month, e.day) == Ordinal(d.year, d.month, d.day) + 1
  {
    MonthLength(d.year, d.month);
    YearLength(d.year);
  }

  /** Counting days forward and the closed form agree. */
  lemma {:induction false} OrdinalOfDate(n: nat)
    ensures Ordinal(DateOf(n).year, DateOf(n).month, DateOf(n).day) == n
  {
    if n > 0 {
      OrdinalOfDate(n - 1);
      OrdinalOfNextDay(DateOf(n - 1));
    }
  }

  lemma {:induction false} YearsAscend(y: int, z: int)
    requires y <= z
    ensures DaysBeforeYear(y) + 365 * (z - y) <= DaysBeforeYear(z)
    decreases z - y
  {
    if y < z {
      YearsAscend(y, z - 1);
      YearLength(z - 1);
    }
  }

  lemma MonthsAscend(y: int, m: int, n: int)
    requires 1 <= m < n <= 12
    ensures DaysBeforeMonth(y, m) + DaysInMonth(y, m) <= DaysBeforeMonth(y, n)
  {}

  lemma WithinYear(y: int, m: int, d: int)
    requires 1 <= m <= 12 && 1 <= d <= DaysInMonth(y, m)
    ensures DaysBeforeYear(y) <= Ordinal(y, m, d) < DaysBeforeYear(y + 1)
  {
    YearLength(y);
    MonthLength(y, 12);
    if m < 12 { MonthsAscend(y, m, 12); }
  }

  lemma EarlierYear(d: Date, e: Date)
    requires ValidDate(d) && ValidDate(e) && d.year < e.year
    ensures Ordinal(d.year, d.month, d.day) < Ordinal(e.year, e.month, e.day)
  {
    WithinYear(d.year, d.month, d.day);
    YearsAscend(d.year + 1, e.year);
    WithinYear(e.year, e.month, e.day);
  }

  lemma EarlierMonth(d: Date, e: Date)
    requires ValidDate(d) && ValidDate(e) && d.year == e.year && d.month < e.month
    ensures Ordinal(d.year, d.month, d.day) < Ordinal(e.year, e.month, e.day)
  {
    MonthsAscend(d.year, d.month, e.month);
  }

  lemma SameOrdinal(d: Date, e: Date)
    requires ValidDate(d) && ValidDate(e)
    requires Ordinal(d.year, d.month, d.day) == Ordinal(e.year, e.month, e.day)
    ensures d == e
  {
    if d.year < e.year { EarlierYear(d, e); }
    if e.year < d.year { EarlierYear(e, d); }
    if d.month < e.month { EarlierMonth(d, e); }
    if e.month < d.month { EarlierMonth(e, d); }
  }

  /** Every date has its own number, so the closed form determines the date. */
  lemma DateOfOrdinal(d: Date)
    requires ValidDate(d)
    ensures Ordinal(d.year, d.month, d.day) >= 0 && DateOf(Ordinal(d.year, d.month, d.day)) == d
  {
    WithinYear(d.year, d.month, d.day);
    YearsAscend(1, d.year);
    var n := Ordinal(d.year, d.month, d.day);
    OrdinalOfDate(n);
    SameOrdinal(d, DateOf(n));
  }

  /** Cron counts weekdays from Sunday. */
  function CronWeekday(n: nat): (w: int)
    ensures 0 <= w < 7
  {
    (n % 7 + 1) % 7
  }

  /** Weekdays counted on day by day from 0001-01-01, a Monday: after Saturday comes Sunday. */
  function WeekdayByCounting(n: nat): (w: int)
    ensures 0 <= w < 7
  {
    if n == 0 then 1
    else
      var w := WeekdayByCounting(n - 1);
      if w == 6 then 0 else w + 1
  }

  lemma SevenDays(n: nat)
    ensures (n + 1) % 7 == if n % 7 == 6 then 0 else n % 7 + 1
  {}

  lemma {:induction false} WeekdayCounts(n: nat)
    ensures CronWeekday(n) == WeekdayByCounting(n)
  {
    if n > 0 {
      WeekdayCounts(n - 1);
      SevenDays(n - 1);
    }
  }

  lemma DayNumber(n: nat, d: Date)
    requires DateOf(n) == d
    ensures 1 <= d.month <= 12 && n == Ordinal(d.year, d.month, d.day)
  {
    OrdinalOfDate(n);
  }

  lemma WeekdayOfNumber(n: nat)
    ensures n == Ordinal(2023, 12, 31) ==> CronWeekday(n) == 0
    ensures n == Ordinal(2024, 1, 1) ==> CronWeekday(n) == 1
  {}

  /** 31 December 2023 was a Sunday, 1 January 2024 a Monday. */
  lemma KnownWeekdays(n: nat)
    ensures DateOf(n) == Date(2023, 12, 31) ==> WeekdayByCounting(n) == 0
    ensures DateOf(n) == Date(2024, 1, 1) ==> WeekdayByCounting(n) == 1
  {
    DayNumber(n, DateOf(n));
    WeekdayOfNumber(n);
    WeekdayCounts(n);
  }

  lemma ModuloSeven(n: nat, m: nat)
    requires (m % 7 + 1) % 7 == 0
    ensures (n % 7 + 1) % 7 == (n - m) % 7
  {
    assert m % 7 == 6;
  }

  /** The weekday is the number of days since any Sunday, past or to come, less whole weeks. */
  lemma WeekdaySince(n: nat, sunday: nat)
    requires WeekdayByCounting(sunday) == 0
    ensures WeekdayByCounting(n) == (n - sunday) % 7
  {
    WeekdayCounts(sunday);
    WeekdayCounts(n);
    ModuloSeven(n, sunday);
  }

  // ----- leap days -----

  /** A year that would be a leap year but for the century rule. */
  predicate SkippedCentury(y: int) { y >= 100 && y % 100 == 0 && y % 400 != 0 }

  function LeapDay(y: int): int { Ordinal(y, 2, 29) }

  function MarchFirst(y: int): int { Ordinal(y, 3, 1) }

  lemma LeapDayIsLeapDay(n: nat)
    requires DateOf(n).month == 2 && DateOf(n).day == 29
    ensures Leap(DateOf(n).year) && n == LeapDay(DateOf(n).year)
  {
    OrdinalOfDate(n);
  }

  /** The first of March of every fourth year, leap or not. */
  lemma MarchFirstForm(q: int)
    ensures MarchFirst(4 * q) == 1461 * q - q / 25 + q / 100 - 306
    ensures Leap(4 * q) <==> q % 25 != 0 || q % 100 == 0
    ensures (4 * q) % 100 == 0 <==> q % 25 == 0
    ensures (4 * q) % 400 == 0 <==> q % 100 == 0
  {
    var y := 4 * q;
    assert y / 4 == q && y % 4 == 0;
    assert y / 100 == q / 25 && y % 100 == 4 * (q % 25) by { assert y == 100 * (q / 25) + 4 * (q % 25); }
    assert y / 400 == q / 100 && y % 400 == 4 * (q % 100) by { assert y == 400 * (q / 100) + 4 * (q % 100); }
    YearLength(y);
  }

  lemma Divides25(q: int)
    ensures (q + 1) / 25 == q / 25 + if (q + 1) % 25 == 0 then 1 else 0
    ensures (q + 1) / 100 == q / 100 + if (q + 1) % 100 == 0 then 1 else 0
    ensures q % 100 == 0 ==> q % 25 == 0
  {
    if q % 100 == 0 { assert q == 25 * (4 * (q / 100)); }
  }

  /** Four years have 1461 days from March to March, one less over a skipped century. */
  lemma FourYears(q: int)
    ensures MarchFirst(4 * (q + 1)) == MarchFirst(4 * q) + if Leap(4 * (q + 1)) then 1461 else 1460
  {
    MarchFirstForm(q);
    MarchFirstForm(q + 1);
    Divides25(q);
    Divides25(q + 1);
  }

  lemma LeapBeforeMarch(y: int)
    requires Leap(y)
    ensures MarchFirst(y) == LeapDay(y) + 1
  {}

  lemma QuarterOf(y: int) returns (q: int)
    requires SkippedCentury(y)
    ensures y == 4 * q && q % 25 == 0 && q % 100 != 0
  {
    q := y / 4;
    Multiples(y);
    MarchFirstForm(q);
  }

  lemma Around25(q: int)
    requires q % 25 == 0
    ensures (q - 1) % 25 == 24 && (q + 1) % 25 == 1
  {}

  lemma SkippedQuarter(y: int) returns (q: int)
    requires SkippedCentury(y)
    ensures y == 4 * q && !Leap(4 * q) && Leap(4 * (q - 1)) && Leap(4 * (q + 1))
  {
    q := QuarterOf(y);
    Around25(q);
    MarchFirstForm(q - 1);
    MarchFirstForm(q + 1);
  }

  /** Around a skipped century the two nearest leap days are eight years apart. */
  lemma EightYears(y: int)
    requires SkippedCentury(y)
    ensures Leap(y - 4) && Leap(y + 4) && !Leap(y)
    ensures LeapDay(y + 4) == LeapDay(y - 4) + 2921 && MarchFirst(y) == LeapDay(y - 4) + 1461
  {
    var q := SkippedQuarter(y);
    FourYears(q - 1);
    FourYears(q);
    LeapBeforeMarch(4 * (q - 1));
    LeapBeforeMarch(4 * (q + 1));
  }

  lemma LeapDaysAscend(y: int, z: int)
    requires Leap(y) && Leap(z) && LeapDay(y) < LeapDay(z)
    ensures y < z
  {
    if z < y { YearsAscend(z, y); }
  }

  lemma MarchBeforeYear(y: int, z: int)
    requires y < z
    ensures MarchFirst(y) < DaysBeforeYear(z)
  {
    WithinYear(y, 3, 1);
    YearsAscend(y + 1, z);
  }

  lemma YearBeforeMarch(y: int, z: int)
    requires y <= z
    ensures DaysBeforeYear(y) <= MarchFirst(z)
  {
    WithinYear(z, 3, 1);
    YearsAscend(y, z);
  }

  lemma DayWithinYear(n: nat) returns (y: int)
    ensures y == DateOf(n).year && y >= 1 && DaysBeforeYear(y) <= n < DaysBeforeYear(y + 1)
  {
    var d := DateOf(n);
    y := d.year;
    OrdinalOfDate(n);
    WithinYear(d.year, d.month, d.day);
  }

  /** The four-year cycle a day falls in, counted from the first of March. */
  lemma MarchCycle(n: nat) returns (q: int)
    ensures q >= 1 && MarchFirst(4 * (q - 1)) <= n < MarchFirst(4 * q)
  {
    var y := DayWithinYear(n);
    q := (y + 3) / 4;
    assert y <= 4 * q < y + 4;
    if n < MarchFirst(4 * q) {
      MarchBeforeYear(4 * (q - 1), y);
    } else {
      q := q + 1;
      YearBeforeMarch(y + 1, 4 * q);
    }
  }
}
