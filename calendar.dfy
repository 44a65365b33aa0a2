/**
 * Dates as `System.DateTime` counts them: day numbers since 0001-01-01 in
 * the proleptic Gregorian calendar, the day of the week, and the week and
 * month ranges the admin screens put into their date filters.
 */
module Calendar {

  /** A point in time: whole seconds since 0001-01-01 00:00. */
  type Instant = nat

  const SecondsPerDay: nat := 86400

  /** `DateTime.Date`, as the number of the day the instant falls on. */
  function DayOf(t: Instant): (d: nat)
    ensures StartOfDay(d) <= t < StartOfDay(d) + SecondsPerDay
  {
    t / SecondsPerDay
  }

  /** Midnight at the start of a day. */
  function StartOfDay(d: nat): Instant
  {
    d * SecondsPerDay
  }

  /** The midnight of a day lies on that day. */
  lemma DayOfStartOfDay(d: nat)
    ensures DayOf(StartOfDay(d)) == d
  {
  }

  /** `DateTime.IsLeapYear`. */
  predicate IsLeapYear(year: int)
  {
    year % 4 == 0 && (year % 100 != 0 || year % 400 == 0)
  }

  /** `DateTime.DaysInMonth`. */
  function DaysInMonth(year: int, month: int): (n: int)
    requires 1 <= month <= 12
    ensures 28 <= n <= 31
    ensures month == 2 ==> (n == 29 <==> IsLeapYear(year))
  {
    if month == 2 then (if IsLeapYear(year) then 29 else 28)
    else if month == 4 || month == 6 || month == 9 || month == 11 then 30
    else 31
  }

  datatype Date = Date(year: int, month: int, day: int)

  /** The dates `DateTime` can represent. */
  predicate ValidDate(d: Date)
  {
    1 <= d.year <= 9999 && 1 <= d.month <= 12 && 1 <= d.day <= DaysInMonth(d.year, d.month)
  }

  /** Days in the years before `year`. */
  function DaysBeforeYear(year: int): int
    requires year >= 1
  {
    var y := year - 1;
    365 * y + y / 4 - y / 100 + y / 400
  }

  /** Days in the months of `year` before `month`. */
  function DaysBeforeMonth(year: int, month: int): (n: int)
    requires 1 <= month <= 12
    ensures 28 * (month - 1) <= n <= 31 * (month - 1)
  {
    if month == 1 then 0 else DaysBeforeMonth(year, month - 1) + DaysInMonth(year, month - 1)
  }

  /** Each month starts where the one before it ends. */
  lemma DaysBeforeMonthStep(year: int, month: int)
    requires 1 <= month < 12
    ensures DaysBeforeMonth(year, month + 1) == DaysBeforeMonth(year, month) + DaysInMonth(year, month)
  {
  }

  /** The day number of a date: 0 for 0001-01-01. */
  function DayNumber(d: Date): (n: nat)
    requires ValidDate(d)
  {
    DaysBeforeYear(d.year) + DaysBeforeMonth(d.year, d.month) + d.day - 1
  }

  /** Within a month, later days have larger numbers, one apart. */
  lemma DayNumberInMonth(d: Date, e: Date)
    requires ValidDate(d) && ValidDate(e)
    requires d.year == e.year && d.month == e.month
    ensures DayNumber(e) - DayNumber(d) == e.day - d.day
  {
  }

  /** `DayOfWeek` as a number: 0 is Sunday, 1 Monday, … 6 Saturday; 0001-01-01 was a Monday. */
  function DayOfWeek(n: int): (w: int)
    ensures 0 <= w < 7
  {
    (n + 1) % 7
  }

  /** The day after has the next weekday. */
  lemma DayOfWeekNext(n: int)
    ensures DayOfWeek(n + 1) == (DayOfWeek(n) + 1) % 7
  {
  }

  /** A filter's two bounds, as day numbers. */
  datatype DayRange = DayRange(start: int, end: int)

  predicate InRange(n: int, r: DayRange)
  {
    r.start <= n <= r.end
  }

  /** `ExecuteSetTodayFilter`: both bounds today. */
  function TodayRange(today: Date): (r: DayRange)
    requires ValidDate(today)
    ensures InRange(DayNumber(today), r) && r.end == r.start
  {
    DayRange(DayNumber(today), DayNumber(today))
  }

  /** `ExecuteClearFilters`: thirty days either side of today. */
  function DefaultRange(today: Date): (r: DayRange)
    requires ValidDate(today)
    ensures InRange(DayNumber(today), r) && r.end - r.start == 60
  {
    DayRange(DayNumber(today) - 30, DayNumber(today) + 30)
  }

  /**
   * `ExecuteSetWeekFilter` as written: the start is today minus its weekday
   * number plus one (Monday's number), the end six days later.
   */
  function WeekRange(today: Date): (r: DayRange)
    requires ValidDate(today)
    ensures r.end == r.start + 6
  {
    var n := DayNumber(today);
    var start := n - DayOfWeek(n) + 1;
    DayRange(start, start + 6)
  }

  /** From Monday to Saturday the week runs Monday to Sunday and holds today. */
  lemma WeekRangeOnWeekdays(today: Date)
    requires ValidDate(today) && DayOfWeek(DayNumber(today)) != 0
    ensures InRange(DayNumber(today), WeekRange(today))
    ensures DayOfWeek(WeekRange(today).start) == 1
  {
    WeekStarts(DayNumber(today));
  }

  /** On a Sunday the week starts tomorrow, so today is outside it. */
  lemma WeekRangeSundayStartsTomorrow(today: Date)
    requires ValidDate(today) && DayOfWeek(DayNumber(today)) == 0
    ensures WeekRange(today).start == DayNumber(today) + 1
    ensures !InRange(DayNumber(today), WeekRange(today))
  {
    WeekStarts(DayNumber(today));
  }

  /** The week evidently intended: the Monday on or before today. */
  function WeekRangeFixed(today: Date): (r: DayRange)
    requires ValidDate(today)
    ensures r.end == r.start + 6
  {
    var n := DayNumber(today);
    var start := n - (DayOfWeek(n) + 6) % 7;
    DayRange(start, start + 6)
  }

  /** The corrected week always holds today and starts on a Monday. */
  lemma WeekRangeFixedHoldsToday(today: Date)
    requires ValidDate(today)
    ensures InRange(DayNumber(today), WeekRangeFixed(today))
    ensures DayOfWeek(WeekRangeFixed(today).start) == 1
    ensures DayOfWeek(DayNumber(today)) != 0 ==> WeekRangeFixed(today) == WeekRange(today)
  {
    WeekStarts(DayNumber(today));
  }

  /**
   * The two ways of finding the start of the week around day `n`: today minus
   * the weekday number plus one, and today minus the days since Monday.
   */
  lemma WeekStarts(n: int)
    ensures var w := DayOfWeek(n);
      (w != 0 ==> n - w + 1 <= n <= n - w + 7 && DayOfWeek(n - w + 1) == 1)
      && (w == 0 ==> n - w + 1 == n + 1)
      && n - (w + 6) % 7 <= n <= n - (w + 6) % 7 + 6
      && DayOfWeek(n - (w + 6) % 7) == 1
      && (w != 0 ==> (w + 6) % 7 == w - 1)
  {
    var w := DayOfWeek(n);
    var q := (n + 1) / 7;
    assert n + 1 == 7 * q + w;
    assert n - w + 1 + 1 == 7 * q + 1;
    if w == 0 {
      assert (w + 6) % 7 == 6;
      assert n - 6 + 1 == 7 * (q - 1) + 1;
    } else {
      assert (w + 6) % 7 == w - 1;
    }
  }

  /** `ExecuteSetMonthFilter`: the first to the last day of today's month. */
  function MonthRange(today: Date): (r: DayRange)
    requires ValidDate(today)
  {
    var first := Date(today.year, today.month, 1);
    var last := Date(today.year, today.month, DaysInMonth(today.year, today.month));
    DayRange(DayNumber(first), DayNumber(last))
  }

  /** The month range holds today and exactly the days of its month. */
  lemma MonthRangeHoldsToday(today: Date)
    requires ValidDate(today)
    ensures InRange(DayNumber(today), MonthRange(today))
    ensures MonthRange(today).end - MonthRange(today).start + 1 == DaysInMonth(today.year, today.month)
    ensures forall d :: ValidDate(d) && d.year == today.year && d.month == today.month
              ==> InRange(DayNumber(d), MonthRange(today))
  {
    var first := Date(today.year, today.month, 1);
    var last := Date(today.year, today.month, DaysInMonth(today.year, today.month));
    DayNumberInMonth(first, today);
    DayNumberInMonth(today, last);
    forall d | ValidDate(d) && d.year == today.year && d.month == today.month
      ensures InRange(DayNumber(d), MonthRange(today))
    {
      DayNumberInMonth(first, d);
      DayNumberInMonth(d, last);
    }
  }
}
