/** Proleptic Gregorian calendar arithmetic, as the clock's datetime library does
    it (ordinal day numbers with 0001-01-01 as day 1, weekday 0 = Monday), and the
    central-European daylight-saving window built on it. */
module Calendar {

  datatype Date = Date(year: int, month: int, day: int)

  /** A local wall-clock reading, field by field. */
  datatype DateTime = DateTime(year: int, month: int, day: int, hour: int, minute: int, second: int)

  const MinYear := 1
  const MaxYear := 9999
  /** weekday() numbering: 0 is Monday, 6 is Sunday. */
  const Sunday := 6
  const SecondsPerDay := 86400

  predicate IsLeapYear(year: int) {
    year % 4 == 0 && (year % 100 != 0 || year % 400 == 0)
  }

  function DaysInMonth(year: int, month: int): int
    requires 1 <= month <= 12
  {
    if month == 2 then (if IsLeapYear(year) then 29 else 28)
    else if month == 4 || month == 6 || month == 9 || month == 11 then 30
    else 31
  }

  predicate ValidDate(d: Date) {
    MinYear <= d.year <= MaxYear && 1 <= d.month <= 12 && 1 <= d.day <= DaysInMonth(d.year, d.month)
  }

  function DateOf(t: DateTime): Date {
    Date(t.year, t.month, t.day)
  }

  predicate ValidDateTime(t: DateTime) {
    ValidDate(DateOf(t)) && 0 <= t.hour < 24 && 0 <= t.minute < 60 && 0 <= t.second < 60
  }

  /** Days in the years before `year`. */
  function DaysBeforeYear(year: int): int
    requires year >= 1
  {
    var y := year - 1;
    y * 365 + y / 4 - y / 100 + y / 400
  }

  /** Days before the first of each month in a common year. */
  const CumulativeDays: seq<int> := [0, 31, 59, 90, 120, 151, 181, 212, 243, 273, 304, 334]

  function DaysBeforeMonth(year: int, month: int): int
    requires 1 <= month <= 12
  {
    CumulativeDays[month - 1] + (if month > 2 && IsLeapYear(year) then 1 else 0)
  }

  /** The day number of a date; 0001-01-01 is day 1. */
  function Ordinal(d: Date): int
    requires ValidDate(d)
  {
    DaysBeforeYear(d.year) + DaysBeforeMonth(d.year, d.month) + d.day
  }

  function Weekday(d: Date): int
    requires ValidDate(d)
  {
    (Ordinal(d) + 6) % 7
  }

  /** The date one day earlier (`d - timedelta(days=1)`), computed on the fields. */
  function PrevDay(d: Date): Date
    requires ValidDate(d) && d != Date(MinYear, 1, 1)
  {
    if d.day > 1 then Date(d.year, d.month, d.day - 1)
    else if d.month > 1 then Date(d.year, d.month - 1, DaysInMonth(d.year, d.month - 1))
    else Date(d.year - 1, 12, 31)
  }

  lemma DaysBeforeNextMonth(year: int, month: int)
    requires 1 <= month < 12
    ensures DaysBeforeMonth(year, month + 1) == DaysBeforeMonth(year, month) + DaysInMonth(year, month)
  {
  }

  lemma DaysBeforeNextYear(year: int)
    requires year >= 1
    ensures DaysBeforeYear(year + 1) == DaysBeforeYear(year) + DaysBeforeMonth(year, 12) + 31
  {
    DivStep(year, 4);
    DivStep(year, 100);
    DivStep(year, 400);
  }

  /** n / k grows by one exactly when n is a multiple of k. */
  lemma DivStep(n: int, k: int)
    requires n >= 1 && (k == 4 || k == 100 || k == 400)
    ensures n / k - (n - 1) / k == if n % k == 0 then 1 else 0
  {
    var q, r := (n - 1) / k, (n - 1) % k;
    assert n - 1 == k * q + r && 0 <= r < k;
    if r == k - 1 {
      assert n == k * (q + 1);
    } else {
      assert n == k * q + (r + 1) && 0 < r + 1 < k;
    }
  }

  lemma ModShift(x: int, k: int)
    ensures (x + k) % 7 == (x % 7 + k) % 7
  {
    var q := x / 7;
    assert x == 7 * q + x % 7;
    assert x + k == 7 * q + (x % 7 + k);
  }

  /** Stepping one day back on the fields is stepping one day back on the day count. */
  lemma PrevDayOrdinal(d: Date)
    requires ValidDate(d) && d != Date(MinYear, 1, 1)
    ensures ValidDate(PrevDay(d)) && Ordinal(PrevDay(d)) == Ordinal(d) - 1
  {
    if d.day > 1 {
    } else if d.month > 1 {
      DaysBeforeNextMonth(d.year, d.month - 1);
    } else {
      DaysBeforeNextYear(d.year - 1);
    }
  }

  /** Within one month the weekday advances by one per day, modulo seven. */
  lemma WeekdayWithinMonth(year: int, month: int, a: int, b: int)
    requires ValidDate(Date(year, month, a)) && ValidDate(Date(year, month, b))
    ensures Weekday(Date(year, month, b)) == (Weekday(Date(year, month, a)) + (b - a)) % 7
  {
    ModShift(Ordinal(Date(year, month, a)) + 6, b - a);
  }

  /** The last Sunday of a month, stated directly: step back from the month's last
      day by as many days as that day lies after a Sunday. */
  function LastSunday(year: int, month: int): (d: Date)
    requires MinYear <= year <= MaxYear && 1 <= month <= 12
    ensures d.year == year && d.month == month
    ensures DaysInMonth(year, month) - 7 < d.day <= DaysInMonth(year, month)
    ensures ValidDate(d)
  {
    var last := Date(year, month, DaysInMonth(year, month));
    Date(year, month, last.day - (Weekday(last) + 1) % 7)
  }

  /** LastSunday is a Sunday, and no later day of the month is one. */
  lemma LastSundayIsLast(year: int, month: int)
    requires MinYear <= year <= MaxYear && 1 <= month <= 12
    ensures Weekday(LastSunday(year, month)) == Sunday
    ensures forall day :: LastSunday(year, month).day < day <= DaysInMonth(year, month) ==>
      Weekday(Date(year, month, day)) != Sunday
  {
    var n := DaysInMonth(year, month);
    var s := LastSunday(year, month);
    var w := Weekday(Date(year, month, n));
    assert s.day - n == -((w + 1) % 7);
    WeekdayWithinMonth(year, month, n, s.day);
    SundayBack(w);
    forall day | s.day < day <= n
      ensures Weekday(Date(year, month, day)) != Sunday
    {
      WeekdayWithinMonth(year, month, s.day, day);
      PastSunday(day - s.day);
    }
  }

  /** Going back (w + 1) % 7 days from weekday w lands on a Sunday. */
  lemma SundayBack(w: int)
    requires 0 <= w < 7
    ensures (w + -((w + 1) % 7)) % 7 == Sunday
  {
  }

  /** One to six days after a Sunday is not a Sunday. */
  lemma PastSunday(j: int)
    requires 0 < j < 7
    ensures (Sunday + j) % 7 != Sunday
  {
  }

  /** One step back inside a month lowers the weekday by one, modulo seven. */
  lemma WeekdayStepBack(year: int, month: int, day: int, w: int)
    requires ValidDate(Date(year, month, day)) && day > 1
    requires Weekday(Date(year, month, day)) == w % 7
    ensures Weekday(Date(year, month, day - 1)) == (w - 1) % 7
  {
    WeekdayWithinMonth(year, month, day, day - 1);
    ModShift(w, -1);
  }

  /** Counting down from weekday w0, the first Sunday is (w0 + 1) % 7 steps away. */
  lemma StepsToSunday(w0: int, steps: int)
    requires 0 <= w0 < 7 && 0 <= steps <= (w0 + 1) % 7
    ensures (w0 - steps) % 7 == Sunday <==> steps == (w0 + 1) % 7
  {
  }

  /** The day before the first of the next month is the month's last day. */
  lemma {:induction false} DayBeforeNextMonth(year: int, month: int)
    requires MinYear <= year <= MaxYear && 1 <= month <= 12
    requires month == 12 ==> year < MaxYear
    ensures var next := if month == 12 then Date(year + 1, 1, 1) else Date(year, month + 1, 1);
      ValidDate(next) && next != Date(MinYear, 1, 1) &&
      PrevDay(next) == Date(year, month, DaysInMonth(year, month))
  {
  }

  /** From any day of a month at or after its last Sunday, that Sunday lies
      (w + 1) % 7 days back, w being the day's weekday. */
  lemma {:induction false} SundayDistance(start: Date)
    requires ValidDate(start)
    requires start.day >= LastSunday(start.year, start.month).day
    ensures start.day - (Weekday(start) + 1) % 7 == LastSunday(start.year, start.month).day
  {
    var s := LastSunday(start.year, start.month);
    LastSundayIsLast(start.year, start.month);
    WeekdayWithinMonth(start.year, start.month, s.day, start.day);
    SundayOffset(start.day - s.day);
  }

  /** A weekday is its own remainder modulo seven. */
  lemma WeekdayInWeek(d: Date)
    requires ValidDate(d)
    ensures 0 <= Weekday(d) < 7 && Weekday(d) % 7 == Weekday(d)
  {
  }

  /** d days after a Sunday, with d below a week, the next Sunday back is d days away. */
  lemma SundayOffset(d: int)
    requires 0 <= d < 7
    ensures ((Sunday + d) % 7 + 1) % 7 == d
  {
  }

  /** One iteration of the backward walk from `day0`: not yet on a Sunday, so
      another step back stays inside the month and lowers the weekday by one. */
  lemma {:induction false} WalkStep(year: int, month: int, day0: int, w0: int, steps: int)
    requires ValidDate(Date(year, month, day0))
    requires 0 <= w0 < 7 && 0 <= steps <= (w0 + 1) % 7 && day0 - (w0 + 1) % 7 >= 1
    requires Weekday(Date(year, month, day0 - steps)) == (w0 - steps) % 7
    requires (w0 - steps) % 7 != Sunday
    ensures var day := day0 - steps;
      && steps + 1 <= (w0 + 1) % 7
      && PrevDay(Date(year, month, day)) == Date(year, month, day - 1)
      && Weekday(Date(year, month, day - 1)) == (w0 - (steps + 1)) % 7
  {
    StepsToSunday(w0, steps);
    WeekdayStepBack(year, month, day0 - steps, w0 - steps);
  }

  /** The walk of get_last_sunday: step back one day at a time until the
      weekday is Sunday. Started anywhere from a month's last Sunday to its
      last day, it stops at that Sunday. */
  method WalkBackToSunday(start: Date) returns (lastDay: Date)
    requires ValidDate(start)
    requires start.day >= LastSunday(start.year, start.month).day
    ensures lastDay == LastSunday(start.year, start.month)
    ensures ValidDate(lastDay) && Weekday(lastDay) == Sunday
  {
    lastDay := start;
    ghost var w0 := Weekday(start);
    ghost var steps := 0;
    SundayDistance(start);
    WeekdayInWeek(start);
    while Weekday(lastDay) != Sunday
      invariant 0 <= steps <= (w0 + 1) % 7
      invariant lastDay == Date(start.year, start.month, start.day - steps)
      invariant Weekday(lastDay) == (w0 - steps) % 7
      decreases (w0 + 1) % 7 - steps
    {
      WalkStep(start.year, start.month, start.day, w0, steps);
      lastDay := PrevDay(lastDay);
      steps := steps + 1;
    }
    StepsToSunday(w0, steps);
  }

  /** get_last_sunday: the day before the first of the next month, then the walk
      back to a Sunday. */
  method GetLastSunday(year: int, month: int) returns (lastDay: Date)
    requires MinYear <= year <= MaxYear && 1 <= month <= 12
    requires month == 12 ==> year < MaxYear
    ensures lastDay == LastSunday(year, month)
    ensures ValidDate(lastDay) && Weekday(lastDay) == Sunday
  {
    var nextMonth := if month == 12 then Date(year + 1, 1, 1) else Date(year, month + 1, 1);
    DayBeforeNextMonth(year, month);
    lastDay := PrevDay(nextMonth);
    lastDay := WalkBackToSunday(lastDay);
  }

  /** Seconds since the start of day 0; orders date-times chronologically. */
  function Seconds(t: DateTime): int
    requires ValidDateTime(t)
  {
    Ordinal(DateOf(t)) * SecondsPerDay + t.hour * 3600 + t.minute * 60 + t.second
  }

  /** Start of summer time: last Sunday of March, 02:00:00 local. */
  function DstStart(year: int): (t: DateTime)
    requires MinYear <= year <= MaxYear
    ensures ValidDateTime(t)
  {
    DateTime(year, 3, LastSunday(year, 3).day, 2, 0, 0)
  }

  /** End of summer time: last Sunday of October, 03:00:00 local. */
  function DstEnd(year: int): (t: DateTime)
    requires MinYear <= year <= MaxYear
    ensures ValidDateTime(t)
  {
    DateTime(year, 10, LastSunday(year, 10).day, 3, 0, 0)
  }

  /** The half-open window [DstStart, DstEnd) of the reading's own year. */
  predicate IsDaylightSavingTime(now: DateTime)
    requires ValidDateTime(now)
  {
    Seconds(DstStart(now.year)) <= Seconds(now) < Seconds(DstEnd(now.year))
  }

  /** is_daylight_saving_time, computing both boundaries with GetLastSunday. */
  method DaylightSavingTime(now: DateTime) returns (dst: bool)
    requires ValidDateTime(now)
    ensures dst == IsDaylightSavingTime(now)
  {
    var lastSunMarch := GetLastSunday(now.year, 3);
    var dstStart := DateTime(now.year, 3, lastSunMarch.day, 2, 0, 0);
    var lastSunOct := GetLastSunday(now.year, 10);
    var dstEnd := DateTime(now.year, 10, lastSunOct.day, 3, 0, 0);
    dst := Seconds(dstStart) <= Seconds(now) < Seconds(dstEnd);
  }

  lemma DaysBeforeMonthMonotone(year: int, m1: int, m2: int)
    requires 1 <= m1 < m2 <= 12
    ensures DaysBeforeMonth(year, m1) + DaysInMonth(year, m1) <= DaysBeforeMonth(year, m2)
    decreases m2 - m1
  {
    DaysBeforeNextMonth(year, m1);
    if m1 + 1 < m2 {
      DaysBeforeMonthMonotone(year, m1 + 1, m2);
    }
  }

  /** Within one year the day count orders dates by (month, day). */
  lemma OrdinalOrder(a: Date, b: Date)
    requires ValidDate(a) && ValidDate(b) && a.year == b.year
    ensures Ordinal(a) < Ordinal(b) <==> a.month < b.month || (a.month == b.month && a.day < b.day)
    ensures Ordinal(a) == Ordinal(b) <==> a == b
  {
    if a.month < b.month {
      DaysBeforeMonthMonotone(a.year, a.month, b.month);
    } else if b.month < a.month {
      DaysBeforeMonthMonotone(a.year, b.month, a.month);
    }
  }

  /** Within one year the chronological order is the order of the fields. */
  lemma SecondsOrder(a: DateTime, b: DateTime)
    requires ValidDateTime(a) && ValidDateTime(b) && a.year == b.year
    ensures Seconds(a) < Seconds(b) <==>
      (a.month, a.day, a.hour, a.minute, a.second) != (b.month, b.day, b.hour, b.minute, b.second) &&
      (a.month < b.month || (a.month == b.month && (a.day < b.day || (a.day == b.day &&
        (a.hour < b.hour || (a.hour == b.hour && (a.minute < b.minute || (a.minute == b.minute && a.second < b.second))))))))
  {
    OrdinalOrder(DateOf(a), DateOf(b));
  }

  /** Summer time, read off the calendar: all of April to September, March from
      02:00 on its last Sunday, October until 03:00 on its last Sunday. */
  lemma DstByCalendar(now: DateTime)
    requires ValidDateTime(now)
    ensures IsDaylightSavingTime(now) <==>
      (3 < now.month < 10) ||
      (now.month == 3 && (now.day > LastSunday(now.year, 3).day ||
                          (now.day == LastSunday(now.year, 3).day && now.hour >= 2))) ||
      (now.month == 10 && (now.day < LastSunday(now.year, 10).day ||
                           (now.day == LastSunday(now.year, 10).day && now.hour < 3)))
  {
    SecondsOrder(DstStart(now.year), now);
    SecondsOrder(now, DstEnd(now.year));
  }

  /** In 2024 the last Sundays of March and October are the 31st and the 27th. */
  lemma Dst2024Sundays()
    ensures LastSunday(2024, 3) == Date(2024, 3, 31)
    ensures LastSunday(2024, 10) == Date(2024, 10, 27)
  {
    assert DaysBeforeYear(2024) == 738885;
    assert Ordinal(Date(2024, 3, 31)) == 738976;
    assert Ordinal(Date(2024, 10, 31)) == 739190;
  }

  /** Summer time 2024 starts at 02:00 on 31 March and ends at 03:00 on 27 October. */
  lemma Dst2024Switches()
    ensures !IsDaylightSavingTime(DateTime(2024, 3, 31, 1, 59, 0))
    ensures IsDaylightSavingTime(DateTime(2024, 3, 31, 2, 0, 0))
    ensures IsDaylightSavingTime(DateTime(2024, 10, 27, 2, 59, 59))
    ensures !IsDaylightSavingTime(DateTime(2024, 10, 27, 3, 0, 0))
  {
    Dst2024Sundays();
    DstByCalendar(DateTime(2024, 3, 31, 1, 59, 0));
    DstByCalendar(DateTime(2024, 3, 31, 2, 0, 0));
    DstByCalendar(DateTime(2024, 10, 27, 2, 59, 59));
    DstByCalendar(DateTime(2024, 10, 27, 3, 0, 0));
  }
}
