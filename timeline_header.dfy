/** The timeline header: stepping the selected date a week back or forward and
    the Monday-to-Sunday range it shows. */
module Header {
  import opened Calendar
  import opened EntryStore
  import opened Stats

  /** `goToPreviousPeriod`: the selected date seven days earlier. */
  method GoToPreviousPeriod(store: TimeEntryStore)
    modifies store`selectedDate
    ensures store.selectedDate == AddDays(old(store.selectedDate), -7)
  {
    store.SetSelectedDate(AddDays(store.selectedDate, -7));
  }

  /** `goToNextPeriod`: the selected date seven days later. */
  method GoToNextPeriod(store: TimeEntryStore)
    modifies store`selectedDate
    ensures store.selectedDate == AddDays(old(store.selectedDate), 7)
  {
    store.SetSelectedDate(AddDays(store.selectedDate, 7));
  }

  /** The range shown: `startOfWeek` and `endOfWeek` with the week starting on
      Monday, that is the Monday's first minute and the Sunday's last one. */
  function PeriodRange(selectedDate: Instant): (range: (Instant, Instant))
    ensures Weekday(DayOf(range.0)) == 0 && MinuteOfDay(range.0) == 0
    ensures DayOf(range.1) == DayOf(range.0) + 6 && MinuteOfDay(range.1) == MinutesPerDay - 1
    ensures range.0 <= selectedDate <= range.1
  {
    var start, end := WeekStart(selectedDate), WeekEnd(selectedDate);
    var monday := MondayOf(DayOf(selectedDate));
    AtMinute(monday + 6, MinutesPerDay - 1);
    DayBounds(selectedDate, monday);
    DayBounds(selectedDate, monday + 6);
    (start, end)
  }

  /** Moving by `k` weeks keeps the time of day and the weekday, and moves the
      range shown by exactly `k` weeks. */
  lemma MovePeriod(selectedDate: Instant, k: int)
    ensures var moved := AddDays(selectedDate, 7 * k);
            && MinuteOfDay(moved) == MinuteOfDay(selectedDate)
            && Weekday(DayOf(moved)) == Weekday(DayOf(selectedDate))
            && PeriodRange(moved).0 == PeriodRange(selectedDate).0 + 7 * k * MinutesPerDay
            && PeriodRange(moved).1 == PeriodRange(selectedDate).1 + 7 * k * MinutesPerDay
  {
    ShiftByWeeks(DayOf(selectedDate), k);
  }

  /** A week back and then a week forward is the identity on dates. */
  lemma PreviousThenNext(selectedDate: Instant)
    ensures AddDays(AddDays(selectedDate, -7), 7) == selectedDate
    ensures AddDays(AddDays(selectedDate, 7), -7) == selectedDate
  {
  }
}
