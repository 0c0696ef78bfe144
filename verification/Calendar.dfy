/** Month starts in epoch seconds, on the proleptic Gregorian calendar. */
module Calendar {
  import opened Values

  const DAY_SECONDS := 86_400

  type i32 = x: int | -0x8000_0000 <= x < 0x8000_0000
  type Month = m: int | 1 <= m <= 12 witness 1

  // ----- the reference calendar -----

  predicate IsLeap(year: int)
  {
    year % 4 == 0 && (year % 100 != 0 || year % 400 == 0)
  }

  function DaysIn(year: int, month: Month): nat
  {
    if month == 2 then if IsLeap(year) then 29 else 28
    else if month == 4 || month == 6 || month == 9 || month == 11 then 30
    else 31
  }

  /** next_month */
  function NextMonth(year: int, month: Month): (int, Month)
  {
    if month == 12 then (year + 1, 1) else (year, month + 1)
  }

  // ----- the closed form -----

  /** Days from the start of era 0 to March 1st of the adjusted year. */
  function YearDays(adjusted: int): int
  {
    var era := adjusted / 400;
    var yearOfEra := adjusted - era * 400;
    era * 146_097 + yearOfEra * 365 + yearOfEra / 4 - yearOfEra / 100
  }

  function ShiftedMonth(month: Month): int { month + if month > 2 then -3 else 9 }

  /** Days into the adjusted year, which starts in March. */
  function DayOfYear(month: Month): int { (153 * ShiftedMonth(month) + 2) / 5 }

  function AdjustedYear(year: int, month: Month): int { year - if month <= 2 then 1 else 0 }

  /** month_start_epoch before its overflow checks, in days. */
  function MonthStartDays(year: int, month: Month): int
  {
    YearDays(AdjustedYear(year, month)) + DayOfYear(month) - 719_468
  }

  /** month_start_epoch */
  function MonthStartEpoch(year: i32, month: Month): Option<i64>
  {
    var seconds := MonthStartDays(year, month) * DAY_SECONDS;
    if I64_MIN <= seconds <= I64_MAX then Some(seconds) else None
  }

  /** One adjusted year is 366 days long exactly when it ends in a leap February. */
  lemma YearLength(year: int)
    ensures YearDays(year) - YearDays(year - 1) == if IsLeap(year) then 366 else 365
  {
    var era := year / 400;
    var y := year - era * 400;
    SameRemainders(year, era, y);
    if y == 0 {
      assert (year - 1) / 400 == era - 1;
    } else {
      assert (year - 1) / 400 == era;
    }
  }

  lemma SameRemainders(year: int, era: int, y: int)
    requires year == era * 400 + y && 0 <= y < 400
    ensures year % 4 == y % 4 && year % 100 == y % 100 && year % 400 == y
  {
    assert year == (era * 100) * 4 + y && year == (era * 4) * 100 + y;
  }

  /** The start of the next month is this month's length later. */
  lemma NextMonthStart(year: int, month: Month)
    ensures var (y, m) := NextMonth(year, month);
            MonthStartDays(y, m) - MonthStartDays(year, month) == DaysIn(year, month)
  {
    if month == 2 { YearLength(year); } else { DayOfYearStep(year, month); }
  }

  /** Inside an adjusted year the month lengths come from the 153-day pattern. */
  lemma DayOfYearStep(year: int, month: Month)
    requires month != 2
    ensures DayOfYear(NextMonth(year, month).1) - DayOfYear(month) == DaysIn(year, month)
    ensures AdjustedYear(NextMonth(year, month).0, NextMonth(year, month).1) == AdjustedYear(year, month)
  {
    if month == 1 {} else if month == 3 {} else if month == 4 {} else if month == 5 {} else if month == 6 {}
    else if month == 7 {} else if month == 8 {} else if month == 9 {}
    else if month == 10 {} else if month == 11 {} else {}
  }

  lemma EpochStart()
    ensures MonthStartDays(1970, 1) == 0
  {
  }

  /** The year and month with this number, counted from January of year 0. */
  function MonthAt(index: int): (int, Month) { (index / 12, index % 12 + 1) }

  /** Days from January 1970 to a month, counted month by month. */
  function CountedDays(index: int): int
    decreases if index >= 23_640 then index - 23_640 else 23_640 - index
  {
    if index == 23_640 then 0
    else if index > 23_640 then CountedDays(index - 1) + var (y, m) := MonthAt(index - 1); DaysIn(y, m)
    else CountedDays(index + 1) - var (y, m) := MonthAt(index); DaysIn(y, m)
  }

  lemma NextIndex(index: int)
    ensures var (y, m) := MonthAt(index); NextMonth(y, m) == MonthAt(index + 1)
  {
  }

  /** The closed form is the day count of the calendar, for every month of every
      year, before and after 1970. */
  lemma {:induction false} ClosedFormCounts(index: int)
    ensures var (y, m) := MonthAt(index); MonthStartDays(y, m) == CountedDays(index)
    decreases if index >= 23_640 then index - 23_640 else 23_640 - index
  {
    if index == 23_640 {
      EpochStart();
    } else if index > 23_640 {
      ClosedFormCounts(index - 1);
      NextIndex(index - 1);
      var (y, m) := MonthAt(index - 1);
      NextMonthStart(y, m);
    } else {
      ClosedFormCounts(index + 1);
      NextIndex(index);
      var (y, m) := MonthAt(index);
      NextMonthStart(y, m);
    }
  }

  /** No i32 year leaves the Int64 seconds. */
  lemma NeverOverflows(year: i32, month: Month)
    ensures MonthStartEpoch(year, month) == Some(MonthStartDays(year, month) * DAY_SECONDS)
  {
    var a := AdjustedYear(year, month);
    var era := a / 400;
    assert -5_368_710 <= era <= 5_368_710;
    assert 0 <= a - era * 400 < 400;
  }

  // ----- month ranges -----

  datatype TimeBounds = TimeBounds(lower: i64, upper: i64)

  /** month_bounds, after its tokens are parsed. */
  function MonthBounds(start: Month, end: Month, year: int): Option<TimeBounds>
  {
    if !(1 <= year <= 9999) || start > end then None
    else
      var (y, m) := NextMonth(year, end);
      var lower, upper := MonthStartEpoch(year, start), MonthStartEpoch(y, m);
      if lower.None? || upper.None? then None else Some(TimeBounds(lower.value, upper.value))
  }

  predicate InBounds(b: TimeBounds, t: int) { b.lower <= t < b.upper }

  lemma StartsAscend(year: int, a: Month, b: Month)
    requires a <= b
    ensures MonthStartDays(year, a) <= MonthStartDays(year, b)
    ensures a < b ==> var (y, m) := NextMonth(year, a); MonthStartDays(y, m) <= MonthStartDays(year, b)
    decreases b - a
  {
    if a < b {
      NextMonthStart(year, a);
      StartsAscend(year, a + 1, b);
    }
  }

  /** The bounds exist for every month range of a year the parser accepts. */
  lemma BoundsExist(start: Month, end: Month, year: int)
    ensures MonthBounds(start, end, year).Some? <==> 1 <= year <= 9999 && start <= end
  {
    if 1 <= year <= 9999 && start <= end {
      var (y, m) := NextMonth(year, end);
      NeverOverflows(year, start);
      NeverOverflows(y, m);
    }
  }

  /** A range is tiled by its months: an instant lies in it exactly when it lies in
      one of the months, and never in two of them. */
  lemma MonthsTile(start: Month, end: Month, year: int, t: int)
    requires 1 <= year <= 9999 && start <= end
    ensures MonthBounds(start, end, year).Some? && forall m: Month :: MonthBounds(m, m, year).Some?
    ensures InBounds(MonthBounds(start, end, year).value, t) <==>
            exists m: Month :: start <= m <= end && InBounds(MonthBounds(m, m, year).value, t)
    ensures forall m: Month, n: Month ::
              InBounds(MonthBounds(m, m, year).value, t) && InBounds(MonthBounds(n, n, year).value, t) ==> m == n
  {
    BoundsExist(start, end, year);
    forall m: Month ensures MonthBounds(m, m, year).Some? { BoundsExist(m, m, year); }
    forall m: Month | start <= m <= end && InBounds(MonthBounds(m, m, year).value, t)
      ensures InBounds(MonthBounds(start, end, year).value, t)
    {
      MonthInside(start, end, year, m);
    }
    if InBounds(MonthBounds(start, end, year).value, t) {
      var m := MonthOf(start, end, year, t);
    }
    forall m: Month, n: Month | InBounds(MonthBounds(m, m, year).value, t) && InBounds(MonthBounds(n, n, year).value, t)
      ensures m == n
    {
      if m < n { Apart(year, m, n); } else if n < m { Apart(year, n, m); }
    }
  }

  lemma Edges(start: Month, end: Month, year: int)
    requires 1 <= year <= 9999 && start <= end
    ensures MonthBounds(start, end, year).Some?
    ensures var b, (y, m) := MonthBounds(start, end, year).value, NextMonth(year, end);
            b.lower == MonthStartDays(year, start) * DAY_SECONDS && b.upper == MonthStartDays(y, m) * DAY_SECONDS
  {
    var (y, m) := NextMonth(year, end);
    NeverOverflows(year, start);
    NeverOverflows(y, m);
  }

  lemma MonthInside(start: Month, end: Month, year: int, m: Month)
    requires 1 <= year <= 9999 && start <= m <= end
    ensures MonthBounds(start, end, year).Some? && MonthBounds(m, m, year).Some?
    ensures MonthBounds(start, end, year).value.lower <= MonthBounds(m, m, year).value.lower
    ensures MonthBounds(m, m, year).value.upper <= MonthBounds(start, end, year).value.upper
  {
    Edges(start, end, year);
    Edges(m, m, year);
    StartsAscend(year, start, m);
    StartsAscend(year, m, end);
    NextMonthStart(year, end);
  }

  lemma Apart(year: int, m: Month, n: Month)
    requires 1 <= year <= 9999 && m < n
    ensures MonthBounds(m, m, year).Some? && MonthBounds(n, n, year).Some?
    ensures MonthBounds(m, m, year).value.upper <= MonthBounds(n, n, year).value.lower
  {
    Edges(m, m, year);
    Edges(n, n, year);
    StartsAscend(year, m, n);
  }

  lemma {:induction false} MonthOf(start: Month, end: Month, year: int, t: int) returns (m: Month)
    requires 1 <= year <= 9999 && start <= end && MonthBounds(start, end, year).Some?
    requires InBounds(MonthBounds(start, end, year).value, t)
    ensures start <= m <= end && MonthBounds(m, m, year).Some? && InBounds(MonthBounds(m, m, year).value, t)
    decreases end - start
  {
    Edges(start, end, year);
    Edges(start, start, year);
    if start == end || t < MonthBounds(start, start, year).value.upper {
      m := start;
    } else {
      Edges(start + 1, end, year);
      m := MonthOf(start + 1, end, year, t);
    }
  }

  /** The bounds are midnights: of the first day of the first month, and of the day
      after the last month, by the calendar's own day count. */
  lemma BoundsMean(start: Month, end: Month, year: int)
    requires 1 <= year <= 9999 && start <= end
    ensures MonthBounds(start, end, year).Some?
    ensures MonthBounds(start, end, year).value.lower == 86_400 * CountedDays(12 * year + start - 1)
    ensures MonthBounds(start, end, year).value.upper == 86_400 * CountedDays(12 * year + end)
  {
    var (y, m) := NextMonth(year, end);
    Edges(start, end, year);
    StartCounted(year, start);
    StartCounted(y, m);
  }

  lemma StartCounted(year: int, month: Month)
    ensures MonthStartDays(year, month) == CountedDays(12 * year + month - 1)
  {
    ClosedFormCounts(12 * year + month - 1);
    IndexOf(year, month);
  }

  lemma IndexOf(year: int, month: Month)
    ensures MonthAt(12 * year + month - 1) == (year, month)
  {
  }
}
