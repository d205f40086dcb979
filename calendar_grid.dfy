/** The month grid of `CalendarGridView`: 42 consecutive days (six weeks)
    starting on the calendar's first weekday on or before the first day of
    the selected month, and stepping the selected month. */
module CalendarGrid {
  import opened Dates

  /** Six weeks of seven days. */
  const NumberOfDays: nat := 42

  /** The first cell as `daysInMonth` computes it: the first of the month
      moved back by `weekday(firstDay) - calendar.firstWeekday` days. */
  function GridStartAsWritten(m: MonthIndex, firstWeekday: WeekdayNumber): DayNumber
  {
    var firstDay := MonthStart(m);
    firstDay - (Weekday(firstDay) - firstWeekday)
  }

  /** The first cell with the offset taken modulo a week: the latest day on
      or before the first of the month that falls on `firstWeekday`. */
  function GridStart(m: MonthIndex, firstWeekday: WeekdayNumber): (start: DayNumber)
    ensures start <= MonthStart(m) < start + 7
    ensures Weekday(start) == firstWeekday
  {
    var firstDay := MonthStart(m);
    var w := Weekday(firstDay);
    var offset := (w - firstWeekday + 7) % 7;
    WeekOffset(firstDay, firstWeekday);
    firstDay - offset
  }

  /** Moving back by the week offset lands on the requested weekday. */
  lemma WeekOffset(d: DayNumber, firstWeekday: WeekdayNumber)
    ensures Weekday(d - (Weekday(d) - firstWeekday + 7) % 7) == firstWeekday
  {
    var w := Weekday(d);
    var offset := (w - firstWeekday + 7) % 7;
    WeekdayShift(d, -offset);
    if w >= firstWeekday {
      assert offset == w - firstWeekday;
    } else {
      assert offset == w - firstWeekday + 7;
    }
  }

  /** The two agree whenever the month does not start before the calendar's
      first weekday within the week. */
  lemma GridStartsAgree(m: MonthIndex, firstWeekday: WeekdayNumber)
    requires firstWeekday <= Weekday(MonthStart(m))
    ensures GridStartAsWritten(m, firstWeekday) == GridStart(m, firstWeekday)
  {
  }

  /** For a week that starts on Sunday, as the grid's header row assumes,
      the two agree for every month. */
  lemma GridStartsAgreeSundayFirst(m: MonthIndex)
    ensures GridStartAsWritten(m, 1) == GridStart(m, 1)
  {
    GridStartsAgree(m, 1);
  }

  /** June 2025 starts on a Sunday. With Monday as the first weekday the
      as-written offset is -1, so the grid starts on June 2nd and the first
      of the month is not in it. */
  lemma AsWrittenMissesFirstOfMonth()
    ensures var june2025 := 2025 * 12 + 5;
      MonthStart(june2025) == 20240 && Weekday(MonthStart(june2025)) == 1 &&
      GridStartAsWritten(june2025, 2) == MonthStart(june2025) + 1
  {
    var june2025 := 2025 * 12 + 5;
    assert YearOf(june2025) == 2025 && MonthOf(june2025) == 6;
    assert LeapYearsBefore(2025) == 492;
  }

  /** Every day of the month falls in one of the 42 cells: at most six
      leading days of the previous month and at most 31 days of the month
      fit in six weeks. */
  lemma GridCoversMonth(m: MonthIndex, firstWeekday: WeekdayNumber)
    ensures forall d :: InMonth(d, m) ==>
      GridStart(m, firstWeekday) <= d < GridStart(m, firstWeekday) + NumberOfDays
  {
    var start := GridStart(m, firstWeekday);
    MonthStartNext(m);
    assert MonthStart(m + 1) <= MonthStart(m) + 31;
    assert MonthStart(m) < start + 7;
  }

  /** `CalendarGridView`: `selectedMonth` is bound to the calendar screen,
      and `firstWeekday` is the current calendar's. Only the month of the
      selected date is ever read, so it is kept as a month index. */
  class CalendarGridView {
    const currentDate: Instant
    const firstWeekday: WeekdayNumber
    var selectedMonth: MonthIndex

    constructor (currentDate: Instant, selectedMonth: MonthIndex, firstWeekday: WeekdayNumber)
      ensures this.currentDate == currentDate && this.selectedMonth == selectedMonth
      ensures this.firstWeekday == firstWeekday
    {
      this.currentDate := currentDate;
      this.selectedMonth := selectedMonth;
      this.firstWeekday := firstWeekday;
    }

    /** `daysInMonth`: the 42 days shown, first to last, from the corrected
        start; it is the start as written whenever that one is not after
        the first of the month. */
    method DaysInMonth() returns (dates: seq<DayNumber>)
      ensures |dates| == NumberOfDays
      ensures forall k :: 0 <= k < |dates| ==> dates[k] == GridStart(selectedMonth, firstWeekday) + k
      ensures firstWeekday <= Weekday(MonthStart(selectedMonth)) ==>
        dates[0] == GridStartAsWritten(selectedMonth, firstWeekday)
      ensures MonthStart(selectedMonth) in dates[..7]
      ensures forall d :: InMonth(d, selectedMonth) ==> d in dates
    {
      var firstDay := MonthStart(selectedMonth);
      var offsetDays := (Weekday(firstDay) - firstWeekday + 7) % 7;
      var startDate := firstDay - offsetDays;
      assert startDate == GridStart(selectedMonth, firstWeekday);
      dates := [];
      for day := 0 to NumberOfDays
        invariant |dates| == day
        invariant forall k :: 0 <= k < day ==> dates[k] == startDate + k
      {
        dates := dates + [startDate + day];
      }
      GridCoversMonth(selectedMonth, firstWeekday);
      if firstWeekday <= Weekday(firstDay) {
        GridStartsAgree(selectedMonth, firstWeekday);
      }
      assert dates[..7][firstDay - startDate] == firstDay;
      forall d | InMonth(d, selectedMonth) ensures d in dates {
        assert dates[d - startDate] == d;
      }
    }

    /** `previousMonth()`: one month back, without bound. */
    method PreviousMonth()
      modifies this`selectedMonth
      ensures selectedMonth == old(selectedMonth) - 1
      ensures MonthStart(selectedMonth) + DaysIn(selectedMonth) == MonthStart(old(selectedMonth))
    {
      selectedMonth := selectedMonth - 1;
      MonthStartNext(selectedMonth);
    }

    /** `nextMonth()`: one month forward, without bound. */
    method NextMonth()
      modifies this`selectedMonth
      ensures selectedMonth == old(selectedMonth) + 1
      ensures MonthStart(selectedMonth) == MonthStart(old(selectedMonth)) + DaysIn(old(selectedMonth))
    {
      MonthStartNext(selectedMonth);
      selectedMonth := selectedMonth + 1;
    }
  }
}
