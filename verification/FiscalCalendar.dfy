/** The generated 4-4-5 fiscal calendar. Dates are day numbers since 1970-01-01. */
module FiscalCalendar {
  const BASE_YEAR := 2026
  /** Monday 2026-01-12. */
  const BASE_YEAR_ANCHOR := 20465
  const YEAR_LENGTH_DAYS := 364
  const PATTERN: seq<nat> := [4, 4, 5, 4, 4, 5, 4, 4, 5, 4, 4, 5]

  datatype Month = Month(startDate: int, endDate: int, weeksCount: nat)

  datatype Week = Week(startDate: int, endDate: int)

  /** (year, sequenceInYear) */
  type MonthKey = (int, int)

  /** The month's unique key and indexInMonth. */
  type WeekKey = (int, int, int)

  datatype Tables = Tables(months: map<MonthKey, Month>, weeks: map<WeekKey, Week>)

  function AnchorForYear(year: int): int {
    BASE_YEAR_ANCHOR + (year - BASE_YEAR) * YEAR_LENGTH_DAYS
  }

  // ---------- calendar dates ----------

  predicate IsLeap(year: int) { year % 4 == 0 && (year % 100 != 0 || year % 400 == 0) }

  function DaysInMonth(year: int, month: int): int {
    if month == 2 then (if IsLeap(year) then 29 else 28) else if month in {4, 6, 9, 11} then 30 else 31
  }

  function DaysBeforeMonth(year: int, month: int): int
    decreases month
  {
    if month <= 1 then 0 else DaysBeforeMonth(year, month - 1) + DaysInMonth(year, month - 1)
  }

  function DaysBeforeYear(year: int): int {
    365 * year + (year - 1) / 4 - (year - 1) / 100 + (year - 1) / 400
  }

  /** The day number of a Gregorian date. */
  function Utc(year: int, month: int, day: int): int {
    DaysBeforeYear(year) - DaysBeforeYear(1970) + DaysBeforeMonth(year, month) + day - 1
  }

  /** The seeded years start on 13, 12, 11 and 10 January: each a day earlier, as 364 days are one short of a year. */
  lemma SeededYearsStart()
    ensures Utc(1970, 1, 1) == 0
    ensures AnchorForYear(2025) == Utc(2025, 1, 13) && AnchorForYear(2026) == Utc(2026, 1, 12)
    ensures AnchorForYear(2027) == Utc(2027, 1, 11) && AnchorForYear(2028) == Utc(2028, 1, 10)
  {
  }

  /** Day numbers follow each other through months, leap years and centuries, so they are the days since the epoch. */
  lemma DatesFollowEachOther(year: int, month: int, day: int)
    requires 1 <= month <= 12 && 1 <= day <= DaysInMonth(year, month)
    ensures var next := if day < DaysInMonth(year, month) then Utc(year, month, day + 1)
                        else if month < 12 then Utc(year, month + 1, 1) else Utc(year + 1, 1, 1);
            next == Utc(year, month, day) + 1
  {
    if day == DaysInMonth(year, month) && month == 12 {
      YearLength(year);
      LeapDays(year);
    }
  }

  lemma LeapDays(year: int)
    ensures DaysBeforeYear(year + 1) == DaysBeforeYear(year) + if IsLeap(year) then 366 else 365
  {
    assert year / 4 - (year - 1) / 4 == if year % 4 == 0 then 1 else 0;
    assert year / 100 - (year - 1) / 100 == if year % 100 == 0 then 1 else 0;
    assert year / 400 - (year - 1) / 400 == if year % 400 == 0 then 1 else 0;
    assert year % 400 == 0 ==> year % 100 == 0;
  }

  lemma YearLength(year: int)
    ensures DaysBeforeMonth(year, 13) == if IsLeap(year) then 366 else 365
  {
    assert DaysBeforeMonth(year, 4) == if IsLeap(year) then 91 else 90;
    assert DaysBeforeMonth(year, 7) == DaysBeforeMonth(year, 4) + 91;
    assert DaysBeforeMonth(year, 10) == DaysBeforeMonth(year, 7) + 92;
  }

  // ---------- what the tables should hold ----------

  predicate IsMonth(m: int) { 1 <= m <= 12 }

  function WeeksIn(m: int): nat
    requires IsMonth(m)
  {
    if m % 3 == 0 then 5 else 4
  }

  /** Weeks of the year before month m: quarters of 13, months of four before the long one. */
  function WeeksBefore(m: int): nat
    requires 1 <= m <= 13
  {
    (m - 1) / 3 * 13 + (m - 1) % 3 * 4
  }

  function MonthStart(year: int, m: int): int
    requires 1 <= m <= 13
  {
    AnchorForYear(year) + 7 * WeeksBefore(m)
  }

  predicate IsMonthKey(k: MonthKey, year: int) { k.0 == year && IsMonth(k.1) }

  predicate IsWeekKey(k: WeekKey, year: int) { k.0 == year && IsMonth(k.1) && 1 <= k.2 <= WeeksIn(k.1) }

  function MonthRow(k: MonthKey): Month
    requires IsMonth(k.1)
  {
    Month(MonthStart(k.0, k.1), MonthStart(k.0, k.1 + 1) - 1, WeeksIn(k.1))
  }

  function WeekRow(k: WeekKey): Week
    requires IsMonth(k.1)
  {
    var start := MonthStart(k.0, k.1) + 7 * (k.2 - 1);
    Week(start, start + 6)
  }

  /** The rows of months `from`..`to` of the year written, every other row as before. */
  ghost predicate MonthsWritten(before: Tables, after: Tables, year: int, from: int, to: int) {
    && (forall k :: k in after.months <==> k in before.months || (IsMonthKey(k, year) && from <= k.1 <= to))
    && (forall k :: k in after.weeks <==> k in before.weeks || (IsWeekKey(k, year) && from <= k.1 <= to))
    && (forall k :: k in after.months ==>
          after.months[k] == if IsMonthKey(k, year) && from <= k.1 <= to then MonthRow(k) else before.months[k])
    && (forall k :: k in after.weeks ==>
          after.weeks[k] == if IsWeekKey(k, year) && from <= k.1 <= to then WeekRow(k) else before.weeks[k])
  }

  ghost predicate YearWritten(before: Tables, after: Tables, year: int) {
    MonthsWritten(before, after, year, 1, 12)
  }

  lemma OneMoreMonth(start: Tables, before: Tables, after: Tables, year: int, m: int)
    requires IsMonth(m) && MonthsWritten(start, before, year, 1, m - 1) && MonthsWritten(before, after, year, m, m)
    ensures MonthsWritten(start, after, year, 1, m)
  {
  }

  ghost predicate YearsWritten(before: Tables, after: Tables, years: seq<int>) {
    YearMonthsWritten(before, after, years) && YearWeeksWritten(before, after, years)
  }

  ghost predicate YearMonthsWritten(before: Tables, after: Tables, years: seq<int>) {
    && (forall k :: k in after.months <==> k in before.months || (k.0 in years && IsMonth(k.1)))
    && (forall k :: k in after.months ==>
          after.months[k] == if k.0 in years && IsMonth(k.1) then MonthRow(k) else before.months[k])
  }

  ghost predicate YearWeeksWritten(before: Tables, after: Tables, years: seq<int>) {
    && (forall k :: k in after.weeks <==> k in before.weeks || (k.0 in years && IsWeekKey(k, k.0)))
    && (forall k :: k in after.weeks ==>
          after.weeks[k] == if k.0 in years && IsWeekKey(k, k.0) then WeekRow(k) else before.weeks[k])
  }

  class Generator {
    var months: map<MonthKey, Month>
    var weeks: map<WeekKey, Week>

    function State(): Tables
      reads this
    {
      Tables(months, weeks)
    }

    constructor ()
      ensures State() == Tables(map[], map[])
    {
      months, weeks := map[], map[];
    }

    /** The inner loop: the weeks of one month, upserted from the cursor on. */
    method UpsertWeeks(year: int, m: int, weekCursor: int, weeksInMonth: nat)
      requires IsMonth(m) && weeksInMonth == WeeksIn(m) && weekCursor == MonthStart(year, m)
      modifies this`weeks
      ensures forall k :: k in weeks <==> k in old(weeks) || (IsWeekKey(k, year) && k.1 == m)
      ensures forall k :: k in weeks ==>
                weeks[k] == if IsWeekKey(k, year) && k.1 == m then WeekRow(k) else old(weeks)[k]
    {
      var w := 0;
      while w < weeksInMonth
        invariant 0 <= w <= weeksInMonth
        invariant forall k :: k in weeks <==> k in old(weeks) || (IsWeekKey(k, year) && k.1 == m && k.2 <= w)
        invariant forall k :: k in weeks ==>
                    weeks[k] == if IsWeekKey(k, year) && k.1 == m && k.2 <= w then WeekRow(k) else old(weeks)[k]
      {
        var ws := weekCursor + w * 7;
        var we := ws + 6;
        weeks := weeks[(year, m, w + 1) := Week(ws, we)];
        w := w + 1;
      }
    }

    /** One round of the outer loop: the month row, its weeks, and the cursor behind its last day. */
    method UpsertMonth(year: int, idx: nat, weekCursor: int) returns (next: int)
      requires idx < 12 && weekCursor == MonthStart(year, idx + 1)
      modifies this
      ensures MonthsWritten(old(State()), State(), year, idx + 1, idx + 1)
      ensures next == MonthStart(year, idx + 2)
    {
      var weeksInMonth := PATTERN[idx];
      assert weeksInMonth == WeeksIn(idx + 1) && WeeksBefore(idx + 2) == WeeksBefore(idx + 1) + weeksInMonth;
      var monthStart := weekCursor;
      var monthEnd := weekCursor + weeksInMonth * 7 - 1;
      months := months[(year, idx + 1) := Month(monthStart, monthEnd, weeksInMonth)];
      UpsertWeeks(year, idx + 1, weekCursor, weeksInMonth);
      next := monthEnd + 1;
    }

    method GenerateYear(year: int)
      modifies this
      ensures YearWritten(old(State()), State(), year)
    {
      var weekCursor := AnchorForYear(year);
      var idx := 0;
      while idx < 12
        invariant 0 <= idx <= 12 && weekCursor == MonthStart(year, idx + 1)
        invariant MonthsWritten(old(State()), State(), year, 1, idx)
      {
        ghost var before := State();
        weekCursor := UpsertMonth(year, idx, weekCursor);
        OneMoreMonth(old(State()), before, State(), year, idx + 1);
        idx := idx + 1;
      }
    }

    method GenerateYears(years: seq<int>)
      modifies this
      ensures YearsWritten(old(State()), State(), years)
    {
      var i := 0;
      while i < |years|
        invariant 0 <= i <= |years|
        invariant YearsWritten(old(State()), State(), years[..i])
      {
        ghost var before := State();
        GenerateYear(years[i]);
        OneMoreYear(old(State()), before, State(), years, i);
        i := i + 1;
      }
      assert years[..i] == years;
    }
  }

  lemma OneMoreYearsMonths(start: Tables, before: Tables, after: Tables, years: seq<int>, i: nat)
    requires i < |years| && YearMonthsWritten(start, before, years[..i]) && YearWritten(before, after, years[i])
    ensures YearMonthsWritten(start, after, years[..i + 1])
  {
    assert forall y :: y in years[..i + 1] <==> y in years[..i] || y == years[i];
  }

  lemma OneMoreYearsWeeks(start: Tables, before: Tables, after: Tables, years: seq<int>, i: nat)
    requires i < |years| && YearWeeksWritten(start, before, years[..i]) && YearWritten(before, after, years[i])
    ensures YearWeeksWritten(start, after, years[..i + 1])
  {
    assert forall y :: y in years[..i + 1] <==> y in years[..i] || y == years[i];
  }

  lemma OneMoreYear(start: Tables, before: Tables, after: Tables, years: seq<int>, i: nat)
    requires i < |years| && YearsWritten(start, before, years[..i]) && YearWritten(before, after, years[i])
    ensures YearsWritten(start, after, years[..i + 1])
  {
    OneMoreYearsMonths(start, before, after, years, i);
    OneMoreYearsWeeks(start, before, after, years, i);
  }

  // ---------- regenerating changes nothing ----------

  /** Writing again any of the years already written, in any order and number, leaves both tables as they are. */
  lemma RegeneratingChangesNothing(start: Tables, first: Tables, second: Tables, years: seq<int>, again: seq<int>)
    requires YearsWritten(start, first, years) && YearsWritten(first, second, again)
    requires forall y :: y in again ==> y in years
    ensures second == first
  {
    assert second.months == first.months;
    assert second.weeks == first.weeks;
  }

  // ---------- the calendar is a bijection ----------

  datatype Position = Position(year: int, month: int, week: int, weekday: int)

  predicate IsPosition(p: Position) {
    IsMonth(p.month) && 1 <= p.week <= WeeksIn(p.month) && 0 <= p.weekday < 7
  }

  /** The day a position stands for: the weekday inside its generated week row. */
  function DayOf(p: Position): int
    requires IsPosition(p)
  {
    WeekRow((p.year, p.month, p.week)).startDate + p.weekday
  }

  /** The position of any day, before or after the base year. */
  function PositionOf(day: int): Position {
    var sinceBase := day - BASE_YEAR_ANCHOR;
    var year, inYear := BASE_YEAR + sinceBase / YEAR_LENGTH_DAYS, sinceBase % YEAR_LENGTH_DAYS;
    var week := inYear / 7;
    var quarter, inQuarter := week / 13, week % 13;
    var third := if inQuarter < 4 then 0 else if inQuarter < 8 then 1 else 2;
    Position(year, quarter * 3 + third + 1, inQuarter - third * 4 + 1, inYear % 7)
  }

  lemma DaysRoundTrip(day: int)
    ensures IsPosition(PositionOf(day)) && DayOf(PositionOf(day)) == day
  {
  }

  lemma SplitUnique(whole: int, rest: int)
    ensures 0 <= rest < 7 ==> (whole * 7 + rest) / 7 == whole && (whole * 7 + rest) % 7 == rest
    ensures 0 <= rest < 13 ==> (whole * 13 + rest) / 13 == whole && (whole * 13 + rest) % 13 == rest
    ensures 0 <= rest < 364 ==> (whole * 364 + rest) / 364 == whole && (whole * 364 + rest) % 364 == rest
  {
  }

  /** The week of the year a week of a month is, from 0. */
  function WeekOfYear(month: int, week: int): int { (month - 1) / 3 * 13 + (month - 1) % 3 * 4 + week - 1 }

  lemma WeekOfYearStart(year: int, month: int, week: int)
    requires IsWeekKey((year, month, week), year)
    ensures WeekRow((year, month, week)).startDate
         == BASE_YEAR_ANCHOR + (year - BASE_YEAR) * YEAR_LENGTH_DAYS + WeekOfYear(month, week) * 7
    ensures 0 <= WeekOfYear(month, week) < 52
  {
  }

  lemma WeekOfYearUnique(month: int, week: int)
    requires IsMonth(month) && 1 <= week <= WeeksIn(month)
    ensures var quarter, inQuarter := WeekOfYear(month, week) / 13, WeekOfYear(month, week) % 13;
            var third := if inQuarter < 4 then 0 else if inQuarter < 8 then 1 else 2;
            quarter * 3 + third + 1 == month && inQuarter - third * 4 + 1 == week
  {
    SplitUnique((month - 1) / 3, (month - 1) % 3 * 4 + week - 1);
  }

  /** The day of a week and weekday counted from the start of their year has that position's year, week and weekday. */
  lemma PositionAt(yearsSince: int, week: int, weekday: int)
    requires 0 <= week < 52 && 0 <= weekday < 7
    ensures var inYear := (yearsSince * YEAR_LENGTH_DAYS + week * 7 + weekday) % YEAR_LENGTH_DAYS;
            && (yearsSince * YEAR_LENGTH_DAYS + week * 7 + weekday) / YEAR_LENGTH_DAYS == yearsSince
            && inYear / 7 == week && inYear % 7 == weekday
  {
    SplitUnique(yearsSince, week * 7 + weekday);
    SplitUnique(week, weekday);
  }

  lemma PositionsRoundTrip(p: Position)
    requires IsPosition(p)
    ensures PositionOf(DayOf(p)) == p
  {
    WeekOfYearStart(p.year, p.month, p.week);
    PositionAt(p.year - BASE_YEAR, WeekOfYear(p.month, p.week), p.weekday);
    WeekOfYearUnique(p.month, p.week);
  }

  /** Day numbers count from a Thursday, so a Monday is 4 modulo 7. */
  predicate IsMonday(day: int) { day % 7 == 4 }

  /** A quarter has months of four, four and five weeks. */
  lemma QuartersAre445(year: int, m: int)
    requires IsMonth(m)
    ensures MonthRow((year, m)).weeksCount == if m in {3, 6, 9, 12} then 5 else 4
    ensures MonthRow((year, m)).endDate - MonthRow((year, m)).startDate + 1 == 7 * MonthRow((year, m)).weeksCount
  {
    assert WeeksBefore(m + 1) == WeeksBefore(m) + WeeksIn(m);
  }

  /** Weeks start on Monday and follow each other without gaps, through months and years; a year has 364 days. */
  lemma WeeksAreContiguous(year: int, m: int, w: int)
    requires IsWeekKey((year, m, w), year)
    ensures var row := WeekRow((year, m, w));
            && IsMonday(row.startDate) && row.endDate == row.startDate + 6
            && (w < WeeksIn(m) ==> row.endDate + 1 == WeekRow((year, m, w + 1)).startDate)
            && (w == WeeksIn(m) ==> row.endDate == MonthRow((year, m)).endDate)
    ensures MonthRow((year, m)).endDate + 1 == if m < 12 then MonthRow((year, m + 1)).startDate
                                               else MonthRow((year + 1, 1)).startDate
    ensures AnchorForYear(year + 1) == AnchorForYear(year) + YEAR_LENGTH_DAYS == MonthStart(year, 13)
  {
    assert WeeksBefore(m + 1) == WeeksBefore(m) + WeeksIn(m);
  }

  /**
   * In freshly generated tables every day of the generated years lies in exactly one week row, the one its
   * position names, and every other day lies in none.
   */
  lemma EveryDayHasOneWeek(tables: Tables, years: seq<int>, day: int, k: WeekKey)
    requires YearsWritten(Tables(map[], map[]), tables, years)
    ensures var p := PositionOf(day);
            (k in tables.weeks && tables.weeks[k].startDate <= day <= tables.weeks[k].endDate)
            <==> p.year in years && k == (p.year, p.month, p.week)
  {
    DaysRoundTrip(day);
    if k in tables.weeks && tables.weeks[k].startDate <= day <= tables.weeks[k].endDate {
      PositionsRoundTrip(Position(k.0, k.1, k.2, day - tables.weeks[k].startDate));
    }
  }
}
