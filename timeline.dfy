/** The day timeline: the selected day's entries, the empty-day notice and the
    state of the entry dialog it opens. */
module Timeline {
  import opened Wrappers
  import opened Calendar
  import opened Seqs
  import opened TimeUtils
  import opened Stats
  import opened Form

  /** `filteredEntries`: the selected day's entries, in their original order. */
  function FilteredEntries(entries: seq<TimeEntry>, selectedDate: Instant): (r: seq<TimeEntry>)
    ensures forall e :: e in r <==> e in entries && DayOf(e.date) == DayOf(selectedDate)
  {
    SameDayEntries(entries, selectedDate)
  }

  /** Each of the day's entries is listed as often as it is stored, no other entry at all. */
  lemma FilteredEntriesCounts(entries: seq<TimeEntry>, selectedDate: Instant)
    ensures forall e :: multiset(FilteredEntries(entries, selectedDate))[e]
                        == if DayOf(e.date) == DayOf(selectedDate) then multiset(entries)[e] else 0
  {
    FilterCounts(OnSameDay(selectedDate), entries);
  }

  /** An entry added to the store is listed last exactly when it is dated on the selected day. */
  lemma FilteredEntriesAppend(entries: seq<TimeEntry>, e: TimeEntry, selectedDate: Instant)
    ensures FilteredEntries(entries + [e], selectedDate)
            == FilteredEntries(entries, selectedDate) + (if DayOf(e.date) == DayOf(selectedDate) then [e] else [])
  {
    FilterConcat(OnSameDay(selectedDate), entries, [e]);
    assert [e][1..] == [];
  }

  /** The "No time entries for this day." panel. */
  function ShowEmptyState(entries: seq<TimeEntry>, selectedDate: Instant, activeEntry: Option<TimeEntry>)
    : (show: bool)
    ensures show <==> activeEntry.None? && forall e :: e in entries ==> DayOf(e.date) != DayOf(selectedDate)
  {
    var filtered := FilteredEntries(entries, selectedDate);
    assert filtered != [] ==> filtered[0] in filtered;
    |filtered| == 0 && activeEntry.None?
  }

  /** The dialog state the timeline keeps. */
  class TimelineDialog {
    var editingEntry: Option<TimeEntry>
    var isFormOpen: bool
    var isTimerMode: bool

    constructor ()
      ensures editingEntry == None && !isFormOpen && !isTimerMode
    {
      editingEntry, isFormOpen, isTimerMode := None, false, false;
    }

    /** `handleOpenNewEntryForm(timerMode)`. */
    method OpenNewEntryForm(timerMode: bool)
      modifies this
      ensures editingEntry == None && isTimerMode == timerMode && isFormOpen
    {
      editingEntry := None;
      isTimerMode := timerMode;
      isFormOpen := true;
    }

    /** `handleEditEntry(entry)`. */
    method EditEntry(entry: TimeEntry)
      modifies this
      ensures editingEntry == Some(entry) && !isTimerMode && isFormOpen
    {
      editingEntry := Some(entry);
      isTimerMode := false;
      isFormOpen := true;
    }

    /** `handleCloseForm`: the timer mode is left as it was. */
    method CloseForm()
      modifies this`isFormOpen, this`editingEntry
      ensures !isFormOpen && editingEntry == None
    {
      isFormOpen := false;
      editingEntry := None;
    }
  }

  /** A button of the timeline opens the dialog, which then runs its opening
      effect on the props it is given: only `entry` and `isOpen`, so the
      timer mode chosen by the button does not reach the form. */
  method OpenNewEntryAsWritten(dialog: TimelineDialog, form: EntryForm, timerMode: bool, now: Instant)
    modifies dialog, form
    ensures dialog.isFormOpen && dialog.isTimerMode == timerMode && dialog.editingEntry == None
    ensures form.isStartingTimer
    ensures form.Valid() && form.category == Categories()[0]
    ensures DialogTitle(dialog.editingEntry.Some?, form.isStartingTimer) == "Start Timer"
  {
    dialog.OpenNewEntryForm(timerMode);
    form.Reset(dialog.editingEntry, now);
  }

  /** The same flow with the dialog's timer mode handed to the form. */
  method OpenNewEntry(dialog: TimelineDialog, form: EntryForm, timerMode: bool, now: Instant)
    modifies dialog, form
    ensures dialog.isFormOpen && dialog.isTimerMode == timerMode && dialog.editingEntry == None
    ensures form.isStartingTimer == timerMode
    ensures form.Valid() && form.category == Categories()[0]
    ensures form.startField == FormatClock(now) && form.endField == ""
    ensures DialogTitle(dialog.editingEntry.Some?, form.isStartingTimer)
            == if timerMode then "Start Timer" else "Add Time Entry"
  {
    dialog.OpenNewEntryForm(timerMode);
    form.ResetInMode(dialog.editingEntry, dialog.isTimerMode, now);
  }

  /** Editing opens the form on the entry, outside timer mode, either way. */
  method OpenEditor(dialog: TimelineDialog, form: EntryForm, entry: TimeEntry, now: Instant)
    modifies dialog, form
    ensures dialog.isFormOpen && dialog.editingEntry == Some(entry)
    ensures !form.isStartingTimer && form.description == entry.description && form.category == entry.category
    ensures form.startField == FormatClock(entry.startTime) && form.endField == EndField(entry)
    ensures form.Valid()
    ensures DialogTitle(dialog.editingEntry.Some?, form.isStartingTimer) == "Edit Time Entry"
  {
    dialog.EditEntry(entry);
    form.Reset(dialog.editingEntry, now);
  }

  /** "Add Time" as written: open the dialog, type a description, submit. A
      description that is not blank starts a timer; nothing is added. */
  method AddTimeAsWritten(dialog: TimelineDialog, form: EntryForm, description: string, now: Instant)
    returns (cmd: FormCommand)
    modifies dialog, form
    ensures !Text.IsBlank(description) ==> cmd == StartTimerCommand(description, Categories()[0])
    ensures Text.IsBlank(description) ==> cmd == NoCommand
  {
    OpenNewEntryAsWritten(dialog, form, false, now);
    form.SetDescription(description);
    var closes;
    cmd, closes := form.Submit(dialog.editingEntry, now);
    if closes {
      dialog.CloseForm();
    }
  }

  /** "Add Time" with the timer mode handed to the form: a description that is
      not blank adds an entry dated now, starting now, still open. */
  method AddTime(dialog: TimelineDialog, form: EntryForm, description: string, now: Instant)
    returns (cmd: FormCommand)
    modifies dialog, form
    ensures !Text.IsBlank(description) ==>
              cmd == AddCommand(AddDraft(now, description, Categories()[0], FormatClock(now), ""))
    ensures Text.IsBlank(description) ==> cmd == NoCommand
  {
    OpenNewEntry(dialog, form, false, now);
    form.SetDescription(description);
    var closes;
    cmd, closes := form.Submit(dialog.editingEntry, now);
    if closes {
      dialog.CloseForm();
    }
  }
}
