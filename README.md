# timekeeper-timeline in Dafny

A model of the core of timekeeper-timeline, a single-page timesheet. A user records
time entries (an id, a date, a start, an end or none while a timer runs, a
description and a category). The entries are shown on a day timeline and summed in
statistics: today's hours, the week's hours, hours per category and hours per
weekday.

The model has these modules:

- `Calendar`: local calendar arithmetic in whole minutes. It stands in for the
  date-fns helpers the application calls: `isSameDay`, `startOfWeek` and
  `endOfWeek` with weeks starting on Monday, `addDays`, and `Date.setHours`.
- `Text`: the string operations the code relies on: `split`, `trim`,
  `toLowerCase`, `parseInt` on numerals, and number rendering.
- `Seqs`: `Array.prototype.filter` and its laws.
- `TimeUtils`: the time-entry record and the utility functions. These cover
  12-hour parsing and formatting, duration labels, hour totals, timeline
  positions and the category tables.
- `EntryStore`: the provider state (entries, selected date, running timer,
  timeline view) as a class. Its operations add, update, delete, start and stop.
  Two invariants are proved, each for the operations that keep it. Ids stay
  unique when the new ids are fresh. At most one entry is open, and it is the
  running one (the running-timer invariant). Delete, stop and start keep this
  invariant, and so does adding an entry that has an end. An update keeps it
  when its patch leaves the id alone and does not set the end to null. The
  start of a timer as the provider writes it breaks the invariant (see Findings).
  So does an edit that clears the end field (see Left out).
- `Stats`: the statistics panel. It covers the day's and the week's entries, the
  seven daily bars and their heights, the per-category fold (a loop), and the view
  title. It proves that the daily bars add up to the week's total, and that, with
  time counted in whole minutes, the category totals do too.
- `Form`: the entry dialog's form as a class. It covers the `HH:mm` fields, how
  the dialog fills them when it opens, and which store command a submission
  issues. It proves that saving an entry's unchanged fields leaves the entry
  unchanged.
- `Timeline`: the day list, the empty-day notice, the dialog state, and the flows
  from the timeline's buttons through the form.
- `Header`: stepping the selected date by a week and the week range shown.

Time is modelled as whole minutes in local time. A timestamp is an `int`, a day
is `timestamp / 1440`, and weekday 0 is Monday (1970-01-01 was a Thursday).
Fractional hours are exact `real`s.

The clock (`new Date()`) is a parameter `now`, and the id generator
(`generateTimeId`) is a parameter `newId`. Each React `set...` call is read as
taking effect at once, in program order. The one exception is the finding about
`startTimer` below, which models the stale entries snapshot as written.

## Model

| member | source | states |
|---|---|---|
| `Calendar.SetHours` | src/utils/timeUtils.ts:56-57 | setting a clock time within the day keeps the calendar day and gives exactly that minute of the day |
| `Calendar.MondayOf` | src/components/Stats.tsx:18 | the week's start is a Monday, at most six days before the day |
| `Calendar.MondayOfUnique` | src/components/Stats.tsx:18-19 | that Monday is the only Monday at most six days before the day |
| `Calendar.AddDays` | src/components/TimelineHeader.tsx:33 | adding days moves the calendar day by exactly that many days and keeps the time of day |
| `Calendar.ShiftByWeeks` | src/components/TimelineHeader.tsx:32-38 | moving by whole weeks keeps the weekday and moves the week's Monday by the same number of weeks |
| `Calendar.DayBounds` | src/components/Stats.tsx:25-28 | comparing a timestamp with a day's first and last minute is comparing calendar days |
| `Text.NatToStringRoundTrip` | src/utils/timeUtils.ts:47-48 | `parseInt` of a rendered natural number gives the number back |
| `Text.PadTwo` | src/components/TimeEntryForm.tsx:45 | the two-digit field part is all digits and denotes the number |
| `Text.SplitAt` | src/utils/timeUtils.ts:44-45 | splitting at the first separator gives the text before it, then the field after it |
| `Text.ToLower` | src/utils/timeUtils.ts:50 | lower-casing keeps the length and maps every character |
| `Text.TrimEmptyIffBlank` | src/components/TimeEntryForm.tsx:58 | `trim() === ''` holds exactly for descriptions made only of whitespace |
| `Seqs.Filter` | src/context/TimeEntryContext.tsx:44 | a filter keeps exactly the elements that pass, and never more of them than there are |
| `Seqs.FilterCounts` | src/components/Timeline.tsx:19-21 | every element that passes is kept as often as it occurs, and every other element is dropped |
| `Seqs.FilterConcat` | src/components/Stats.tsx:25-28 | filtering distributes over concatenation |
| `Seqs.FilterIdempotent` | src/context/TimeEntryContext.tsx:44 | filtering twice with one condition is filtering once |
| `TimeUtils.To24Hour` | src/utils/timeUtils.ts:50-54 | for hours 1-12, AM gives the hour modulo 12 and PM that plus 12; any other period keeps the hour |
| `TimeUtils.ParseTimeString` | src/utils/timeUtils.ts:43-59 | `parseTimeString` on "h:mm period" text; what it computes is stated by `ParseParts`, `ParseTimeStringCases` and `FormatTimeRoundTrip` |
| `TimeUtils.ParseParts` | src/utils/timeUtils.ts:43-59 | a numeral, ':', a numeral, ' ' and a period parse as `setHours` of the converted hour and the minute |
| `TimeUtils.ParseTimeStringCases` | src/utils/timeUtils.ts:50-57 | 12 AM is midnight, 12 PM is noon, PM adds 12 to hours 1-11, and AM keeps them; the day is the base date's |
| `TimeUtils.TwelveHourRoundTrip` | src/utils/timeUtils.ts:50-54 | the AM/PM conversion inverts the 12-hour clock face for every hour 0-23 |
| `TimeUtils.FormatTime` | src/utils/timeUtils.ts:17-19 | `formatTime` always prints text that `parseTimeString` accepts |
| `TimeUtils.FormatTimeRoundTrip` | src/utils/timeUtils.ts:17-19 | parsing what `formatTime` prints gives back the same time of day, on the base date's day |
| `TimeUtils.TimeBlocks` | src/utils/timeUtils.ts:95-102 | the hour labels; their meaning is stated by `TimeBlocksAreHours` |
| `TimeUtils.TimeBlocksAreHours` | src/utils/timeUtils.ts:95-102 | there are 24 labels, and label i is what `formatTime` prints for i:00 and parses back to i:00 |
| `TimeUtils.JsRemainder` | src/utils/timeUtils.ts:66 | JavaScript `%`: the dividend minus the result is a multiple of the divisor, and the result lies in [0, b) for a non-negative dividend and in (-b, 0] for a negative one, so a negative duration gets a negative minute part |
| `TimeUtils.CalculateDuration` | src/utils/timeUtils.ts:61-75 | the label is "..." exactly when the entry has no end |
| `TimeUtils.DurationTextRoundTrip` | src/utils/timeUtils.ts:68-74 | the three label shapes ("{m}m", "{h}h", "{h}h {m}m") read back to 60*h + m |
| `TimeUtils.DurationShapes` | src/utils/timeUtils.ts:61-75 | for d >= 0 minutes, with h = d div 60 and m = d mod 60: "{m}m" under an hour, "{h}h" on a whole hour, "{h}h {m}m" otherwise |
| `TimeUtils.DurationLabelRoundTrip` | src/utils/timeUtils.ts:61-75 | the label of every non-negative duration reads back to its minutes, so no two durations share a label |
| `TimeUtils.DurationExamples` | src/utils/timeUtils.ts:61-75 | 90 minutes is "1h 30m", 45 is "45m", 120 is "2h", 0 is "0m", and an open entry is "..." |
| `TimeUtils.HoursFromIsMinutes` | src/utils/timeUtils.ts:77-83 | the reducer adds the closed entries' whole minutes over sixty to its start value |
| `TimeUtils.TotalHours` | src/utils/timeUtils.ts:77-83 | `calculateTotalHours`, the `reduce` from 0; its value is stated by `TotalHoursIsMinutes` and the lemmas after it |
| `TimeUtils.HoursFrom` | src/utils/timeUtils.ts:78-82 | the reducer run from a running total; its value is stated by `HoursFromIsMinutes` |
| `TimeUtils.TotalHoursIsMinutes` | src/utils/timeUtils.ts:77-83 | the total is the closed entries' summed minutes divided by 60 |
| `TimeUtils.TotalMinutesConcat` | src/utils/timeUtils.ts:77-83 | summed minutes are additive over concatenation |
| `TimeUtils.TotalHoursConcat` | src/utils/timeUtils.ts:77-83 | the total of two lists is the sum of their totals |
| `TimeUtils.TotalHoursBase` | src/utils/timeUtils.ts:78-81 | no entries total 0; one entry totals its elapsed hours, or 0 while open |
| `TimeUtils.TotalHoursSkipsOpen` | src/utils/timeUtils.ts:79 | dropping the open entries leaves the total unchanged |
| `TimeUtils.TotalHoursNonNegative` | src/utils/timeUtils.ts:77-83 | when no closed entry ends before it starts, the total is not negative |
| `TimeUtils.TotalMinutesNonNegative` | src/utils/timeUtils.ts:80 | likewise for the summed minutes |
| `TimeUtils.TimelinePosition` | src/utils/timeUtils.ts:89-93 | the position is a percentage in [0, 100) |
| `TimeUtils.TimelinePositionOrder` | src/utils/timeUtils.ts:89-93 | positions order exactly as times of day do, and equal positions mean equal times of day |
| `TimeUtils.TimelinePositionLandmarks` | src/utils/timeUtils.ts:92 | midnight is at 0% and noon at 50% |
| `TimeUtils.CategoryColor` | src/utils/timeUtils.ts:136-148 | an unknown category is gray; the color is gray exactly for "Other" and unknown categories |
| `TimeUtils.Categories` | src/utils/timeUtils.ts:150-160 | seven categories, no two alike |
| `TimeUtils.CategoryColorTable` | src/utils/timeUtils.ts:136-160 | the seven listed categories get their listed tokens, and no two share one |
| `EntryStore.Merge` | src/context/TimeEntryContext.tsx:38 | the `{ ...entry, ...updatedFields }` spread; its laws are stated by `MergeLaws`, and its use in the edit flow by `Form.UnchangedEditKeepsEntry` and `Form.EditShowsAgain` |
| `EntryStore.MergeLaws` | src/context/TimeEntryContext.tsx:38 | an empty patch changes nothing, and a patch applied twice is applied once |
| `EntryStore.Updated` | src/context/TimeEntryContext.tsx:37-39 | same length and order; every entry with the id is patched and every other entry is kept |
| `EntryStore.UpdatedUnknownId` | src/context/TimeEntryContext.tsx:36-41 | updating an id that no entry has changes nothing |
| `EntryStore.UpdatedIdempotent` | src/context/TimeEntryContext.tsx:36-41 | repeating an update changes nothing more |
| `EntryStore.Removed` | src/context/TimeEntryContext.tsx:43-46 | exactly the entries with other ids remain, and the id is gone |
| `EntryStore.RemovedLaws` | src/context/TimeEntryContext.tsx:43-46 | deleting an unknown id changes nothing, and deleting twice is deleting once |
| `EntryStore.UniqueIdsCons` | src/context/TimeEntryContext.tsx:30-34 | a list with a head has distinct ids exactly when the head's id is new and the tail's ids are distinct |
| `EntryStore.RemovedKeepsUniqueIds` | src/context/TimeEntryContext.tsx:43-46 | deleting keeps ids distinct |
| `EntryStore.AtMostOneOpen` | src/context/TimeEntryContext.tsx:48-74 | with distinct ids, the timer invariant allows at most one open entry |
| `EntryStore.StopActive` | src/context/TimeEntryContext.tsx:68-74 | the entries after `stopTimer`; stated by `StopActiveClosesAll` and `TimerHandOver` |
| `EntryStore.StopActiveClosesAll` | src/context/TimeEntryContext.tsx:68-74 | stopping the timer keeps every id, leaves no entry open, and ends the active entry now |
| `EntryStore.TimerHandOver` | src/context/TimeEntryContext.tsx:48-66 | after a stop and an append, the new entry is the only open one, and it is last |
| `EntryStore.UniqueIdsSnoc` | src/context/TimeEntryContext.tsx:30-34 | appending an entry with a new id keeps ids distinct |
| `EntryStore.StartKeepsUniqueIds` | src/context/TimeEntryContext.tsx:48-66 | stopping keeps the ids, so starting with an unused id keeps them distinct |
| `EntryStore.RunningEntryStaysOpen` | src/context/TimeEntryContext.tsx:64 | appending a new open entry while another is stored open breaks the timer invariant |
| `EntryStore.TimeEntryStore.constructor` | src/context/TimeEntryContext.tsx:25-28 | the given entries, today selected, no timer, the daily view; consistent when no initial entry is open |
| `EntryStore.TimeEntryStore.AddEntry` | src/context/TimeEntryContext.tsx:30-34 | appends the draft under the new id with its date, times, description and category kept; keeps ids distinct for an unused id, and keeps the timer invariant for a closed draft |
| `EntryStore.TimeEntryStore.UpdateEntry` | src/context/TimeEntryContext.tsx:36-41 | the entries become the updated list; an unknown id changes nothing; ids and the timer invariant survive patches that do not touch the id or reopen |
| `EntryStore.TimeEntryStore.DeleteEntry` | src/context/TimeEntryContext.tsx:43-46 | the entries become the filtered list; ids stay distinct and the timer invariant holds |
| `EntryStore.TimeEntryStore.StopTimer` | src/context/TimeEntryContext.tsx:68-74 | nothing without a timer; otherwise the active entry ends now and the timer clears, and no entry is left open |
| `EntryStore.TimeEntryStore.StartTimer` | src/context/TimeEntryContext.tsx:48-66 | stops the running timer, then appends an open entry on the selected date starting now, which becomes the only open entry |
| `EntryStore.TimeEntryStore.StartTimerAsWritten` | src/context/TimeEntryContext.tsx:48-66 | the append is computed from the entries before the stop, so a running entry stays open beside the new one |
| `EntryStore.TimeEntryStore.Tick` | src/context/TimeEntryContext.tsx:77-86 | the once-a-second re-set leaves the active entry's value as it was |
| `EntryStore.TimeEntryStore.SetSelectedDate` | src/context/TimeEntryContext.tsx:26 | the selected date becomes the given date |
| `EntryStore.TimeEntryStore.SetTimelineView` | src/context/TimeEntryContext.tsx:28 | the view becomes the given view |
| `Stats.SameDayEntries` | src/components/Stats.tsx:13-15 | exactly the entries dated on the selected calendar day |
| `Stats.WeekEntries` | src/components/Stats.tsx:25-28 | exactly the entries dated Monday to Sunday of the selected week |
| `Stats.WeekStart` | src/components/Stats.tsx:18 | a Monday at midnight, at most a week before the selected date |
| `Stats.WeekEnd` | src/components/Stats.tsx:19 | the last minute of the Sunday six days after the week's start |
| `Stats.InWeekByDay` | src/components/Stats.tsx:18-28 | the timestamp comparison with the week's bounds is a comparison of calendar days |
| `Stats.SplitMinutes` | src/components/Stats.tsx:25-28 | entries passing one of two exclusive conditions total what each condition totals |
| `Stats.DayStatOf` | src/components/Stats.tsx:46-54 | one bar of the chart; its hours are stated by `DayBarHours` |
| `Stats.DailyDistribution` | src/components/Stats.tsx:46-54 | seven bars, Monday to Sunday of the selected week, named Mon..Sun; exactly the selected day is current |
| `Stats.DayBarHours` | src/components/Stats.tsx:47-48 | a bar's hours are the total of all entries dated on its day |
| `Stats.FirstDaysHours` | src/components/Stats.tsx:46-54 | the bars of the first k days add up to the hours of the entries dated on those days |
| `Stats.WeekInMinutes` | src/components/Stats.tsx:25-32 | the week's total is the minutes of the entries of its seven days over sixty |
| `Stats.DailyHoursAddUp` | src/components/Stats.tsx:32-54 | the seven daily bars add up to the week's total |
| `Stats.MaxDailyHours` | src/components/Stats.tsx:57 | at least 8, at least every bar, and equal to 8 or to some bar |
| `Stats.BarHeight` | src/components/Stats.tsx:101 | no hours give height 0, hours up to the maximum give 0-100%, and the height is proportional to the hours |
| `Stats.BarsFitChart` | src/components/Stats.tsx:57-101 | when no entry ends before it starts, every bar's height is between 0% and 100% |
| `Stats.CategoryHours` | src/components/Stats.tsx:36-41 | the hours of one category's closed entries; stated step by step by `CategoryStep` and for the whole fold by `CategoryDistribution` |
| `Stats.ClosedCategories` | src/components/Stats.tsx:35-43 | the keys the fold creates; stated by `ClosedCategoriesMembers` |
| `Stats.ClosedCategoriesMembers` | src/components/Stats.tsx:35-43 | the fold's keys are exactly the categories of closed entries |
| `Stats.CategoryStep` | src/components/Stats.tsx:36-41 | a new entry adds its hours to its own category only, and only when it is closed |
| `Stats.AccumulateStep` | src/components/Stats.tsx:35-43 | one step of the reducer keeps the map equal to the per-category totals of the prefix |
| `Stats.CategoryDistribution` | src/components/Stats.tsx:35-43 | the fold's keys are the closed entries' categories, and each value is that category's total hours (its whole minutes over 60) |
| `Stats.CategoryHoursUnseen` | src/components/Stats.tsx:41 | a category without a closed entry has no hours |
| `Stats.CategoryHoursSumIsFiltered` | src/components/Stats.tsx:35-43 | the totals of distinct categories add up to the total of their entries |
| `Stats.CategoryHoursAddUp` | src/components/Stats.tsx:32-43 | with time in whole minutes, the category totals add up to the week's total; with seconds the two can differ (see Left out) |
| `Stats.ViewTitle` | src/components/Stats.tsx:60-68 | each view has its own title, and each title names exactly one view |
| `Form.FormatClock` | src/components/TimeEntryForm.tsx:45 | "HH:mm" is a valid time field that shows the time of day |
| `Form.EndField` | src/components/TimeEntryForm.tsx:46 | the end field is empty exactly for an open entry, and is otherwise a valid time |
| `Form.ReadClock` | src/components/TimeEntryForm.tsx:65 | `split(':').map(Number)` of a field gives its two numerals, with hour < 24 and minute < 60 |
| `Form.ApplyClock` | src/components/TimeEntryForm.tsx:64-66 | the base's day at the field's time of day |
| `Form.ClockRoundTrip` | src/components/TimeEntryForm.tsx:45-66 | applying a time's own field to it gives the time back |
| `Form.PadTwoOfDigits` | src/components/TimeEntryForm.tsx:45 | a two-digit numeral is the padded rendering of its value |
| `Form.FieldRoundTrip` | src/components/TimeEntryForm.tsx:45-66 | applying a field and formatting the result gives the field back |
| `Form.EditPatch` | src/components/TimeEntryForm.tsx:63-80 | keeps the id and date; the new start is on the start's day at the field's time; the end is null exactly for an empty field and is otherwise on the end's (or start's) day |
| `Form.UnchangedEditKeepsEntry` | src/components/TimeEntryForm.tsx:41-80 | saving the fields the form opened with leaves the entry unchanged |
| `Form.EditShowsAgain` | src/components/TimeEntryForm.tsx:41-80 | the saved entry shows the submitted fields when the form opens on it again |
| `Form.ClearedEndReopens` | src/components/TimeEntryForm.tsx:68-80 | saving an edit with the end field cleared leaves the entry open under its own id |
| `Form.AddDraft` | src/components/TimeEntryForm.tsx:82-101 | dated now, with the start (and the end, if the field is filled) today at the fields' times |
| `Form.DialogTitle` | src/components/TimeEntryForm.tsx:107-111 | "Edit Time Entry" exactly when editing, "Start Timer" exactly in timer mode, otherwise "Add Time Entry" |
| `Form.EntryForm.constructor` | src/components/TimeEntryForm.tsx:33-37 | empty fields, not in timer mode |
| `Form.EntryForm.Reset` | src/components/TimeEntryForm.tsx:41-55 | editing shows the entry's values; a new entry gets an empty timer form in the first category starting now |
| `Form.EntryForm.ResetInMode` | src/components/TimeEntryForm.tsx:41-55 | as Reset, but a new entry is in timer mode exactly when the timeline asked for a timer |
| `Form.EntryForm.SetDescription` | src/components/TimeEntryForm.tsx:33 | the description becomes the value |
| `Form.EntryForm.SetCategory` | src/components/TimeEntryForm.tsx:34 | the category becomes the value |
| `Form.EntryForm.SetStartField` | src/components/TimeEntryForm.tsx:35 | the start field becomes the value, including "" from a cleared input |
| `Form.EntryForm.SetEndField` | src/components/TimeEntryForm.tsx:36 | the end field becomes the value |
| `Form.EntryForm.Submit` | src/components/TimeEntryForm.tsx:57-105 | no command and no close exactly for a blank description; otherwise startTimer in timer mode, the edit patch for an entry, or the new draft, and the form closes |
| `Timeline.FilteredEntries` | src/components/Timeline.tsx:19-21 | exactly the entries dated on the selected day |
| `Timeline.FilteredEntriesCounts` | src/components/Timeline.tsx:19-21 | each of the day's entries is listed as often as it is stored, and no other entry is listed |
| `Timeline.FilteredEntriesAppend` | src/components/Timeline.tsx:19-21 | an added entry is listed last exactly when it is dated on the selected day |
| `Timeline.ShowEmptyState` | src/components/Timeline.tsx:100 | the notice shows exactly when no timer runs and no entry is dated on the selected day |
| `Timeline.TimelineDialog.constructor` | src/components/Timeline.tsx:13-15 | no entry is being edited, the form is closed, and timer mode is off |
| `Timeline.TimelineDialog.OpenNewEntryForm` | src/components/Timeline.tsx:23-27 | no entry, the requested timer mode, and the form open |
| `Timeline.TimelineDialog.EditEntry` | src/components/Timeline.tsx:29-33 | the entry, no timer mode, and the form open |
| `Timeline.TimelineDialog.CloseForm` | src/components/Timeline.tsx:35-38 | the form is closed with no entry; timer mode is untouched |
| `Timeline.OpenNewEntryAsWritten` | src/components/Timeline.tsx:114-118 | whichever button opens it, a new-entry form is in timer mode and titled "Start Timer" |
| `Timeline.OpenNewEntry` | src/components/Timeline.tsx:23-27 | with the mode handed to the form, it is in timer mode exactly when asked, with the matching title |
| `Timeline.OpenEditor` | src/components/Timeline.tsx:29-33 | editing opens the form on the entry's description, category, start and end fields, ready to submit, titled "Edit Time Entry" |
| `Timeline.AddTimeAsWritten` | src/components/Timeline.tsx:49 | "Add Time" with a description that is not blank starts a timer instead of adding an entry |
| `Timeline.AddTime` | src/components/Timeline.tsx:49 | with the mode handed over, "Add Time" adds an entry dated now and starting now |
| `Header.GoToPreviousPeriod` | src/components/TimelineHeader.tsx:32-34 | the selected date moves seven days back |
| `Header.GoToNextPeriod` | src/components/TimelineHeader.tsx:36-38 | the selected date moves seven days forward |
| `Header.PeriodRange` | src/components/TimelineHeader.tsx:40-42 | from the Monday's first minute to the Sunday's last minute, around the selected date |
| `Header.MovePeriod` | src/components/TimelineHeader.tsx:32-42 | stepping by k weeks keeps the weekday and time of day and moves the range by exactly k weeks |
| `Header.PreviousThenNext` | src/components/TimelineHeader.tsx:32-38 | a week back and a week forward, in either order, is the identity |

## Left out

- Date formatting for display is not modelled: `formatFullDate`, `formatMonthYear`, `formatDayOfMonth`, `formatDayName`, the header's `dd/MM/yy` range text, and the weekday names, which are fixed strings here. `formatTime` (`h:mm a`) and the form's `HH:mm` are modelled.
- `roundToNearest` is not modelled: it is floating-point rounding for display, and hours here are exact reals.
- Statistics percentages and bar colors are not modelled.
- `generateTimeId` is not modelled. It is randomness; ids are a parameter. `AddEntry` and `StartTimer` promise distinct ids only when the new id is unused, as the antecedent of their `ensures`.
- `new Date()` is not modelled. The clock is a parameter.
- `getInitialTimeEntries` (sample data) and `getDaysInMonth` (unused by the core) are not modelled.
- The one-second interval timer and its cleanup are not modelled; only the state change of one tick (`Tick`) is.
- Toast notifications are not modelled, including `handleExport` and `handleViewChange` in the header, which only show a notification.
- The header's filter, grouping and export menus are not modelled. They have no effect on state.
- Time zones, daylight-saving changes, seconds and milliseconds are not modelled. Time is whole local minutes, so `differenceInMinutes` is exact subtraction.
- Stats.CategoryHoursAddUp: holds only for whole-minute times. Timer stamps from `new Date()` carry seconds and milliseconds (src/context/TimeEntryContext.tsx:57, :71), and the form's `setHours(h, m)` keeps them (src/components/TimeEntryForm.tsx:66, :72). `calculateTotalHours` truncates each entry to whole minutes, but the category fold (src/components/Stats.tsx:39) divides the raw millisecond difference. An entry from 10:00:00 to 10:00:59 adds 0 h to the week total and about 0.0164 h to its category; whole-minute time hides this difference. The same applies to `Stats.CategoryDistribution`, whose values are whole minutes over 60.
- TimeUtils.ParseTimeString: its contract is stated only for text of the shape "h:mm period". `parseInt`'s leniency on other text (leading spaces, trailing garbage, NaN) is not modelled, and a missing ':' or ' ' throws in the source.
- TimeUtils.CategoryColor: JavaScript prototype keys (such as "constructor") looked up in the color record are not modelled; every category outside the table is gray.
- Form.EntryForm.Submit: requires filled time fields (`Valid()`). A start field the user clears makes the source build an Invalid Date; that path is not modelled.
- EntryStore.TimeEntryStore.UpdateEntry: the running-timer invariant is promised only for patches that do not set the end to null. The edit form sends such a patch when its end field is cleared (`Form.ClearedEndReopens`). The entry is then open although no timer runs for it, and two such edits leave two open entries.
- Form.EntryForm.Reset: the dialog description strings and button labels are not modelled.
- React's batched, deferred state updates are read as immediate and sequential everywhere except `StartTimerAsWritten`, which models the one place where the difference shows.
- `src/components/TimeEntry.tsx`, `src/components/JiraTimesheet.tsx` and `src/pages/Index.tsx` are not part of this model.

## Findings

| source | as written | input that shows it | evidently intended | confidence | as-written member | corrected member |
|---|---|---|---|---|---|---|
| src/context/TimeEntryContext.tsx:48-66 | `startTimer` calls `stopTimer` (an `updateEntry` on the rendered entries) and then `setEntries([...entries, newEntry])` on the same rendered entries, so the append replaces the update | a timer is running on entry A and the user starts another timer: A keeps `endTime: null` beside the new open entry, and the store has two open entries | the running entry is closed at the moment the new timer starts | not executed | `EntryStore.TimeEntryStore.StartTimerAsWritten` | `EntryStore.TimeEntryStore.StartTimer` |
| src/components/Timeline.tsx:114-118 | the form gets only `entry` and `isOpen`, and `TimeEntryForm.tsx:53` always sets `isStartingTimer` to true for a new entry, so the timeline's `isTimerMode` never reaches it | "Add Time" (Timeline.tsx:49), then a description and submit: the dialog says "Start Timer" and submit calls `startTimer`; the add branch of `TimeEntryForm.tsx:81-101` cannot run | "Add Time" opens an "Add Time Entry" form that records an entry with the given times | not executed | `Timeline.AddTimeAsWritten` | `Timeline.AddTime` |
