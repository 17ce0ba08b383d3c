/** The entry dialog's form: the fields it edits, how they are filled when the
    dialog opens, and the store command a submission issues. */
module Form {
  import opened Wrappers
  import opened Calendar
  import opened Text
  import opened TimeUtils
  import opened EntryStore

  // ---------------------------------------------------------------------------
  // HH:mm fields

  /** What a filled `<input type="time">` holds: "HH:mm" with hour < 24 and minute < 60. */
  predicate IsClockField(s: string) {
    && |s| == 5 && s[2] == ':' && AllDigits(s[..2]) && AllDigits(s[3..])
    && DecimalValue(s[..2]) < 24 && DecimalValue(s[3..]) < 60
  }

  /** An end field is either cleared or filled. */
  predicate IsEndField(s: string) {
    s == "" || IsClockField(s)
  }

  /** `format(t, 'HH:mm')`. */
  function FormatClock(t: Instant): (s: string)
    ensures IsClockField(s)
    ensures FieldMinutes(s) == MinuteOfDay(t)
  {
    var h, m := MinuteOfDay(t) / 60, MinuteOfDay(t) % 60;
    var s := PadTwo(h) + ":" + PadTwo(m);
    assert s[..2] == PadTwo(h) && s[3..] == PadTwo(m);
    s
  }

  /** The end field of an entry: its end time, or empty while it runs. */
  function EndField(e: TimeEntry): (s: string)
    ensures IsEndField(s)
    ensures s == "" <==> e.endTime.None?
  {
    match e.endTime
    case None => ""
    case Some(end) => FormatClock(end)
  }

  /** A filled field splits at its colon into its two numerals. */
  lemma ClockFieldSplit(s: string)
    requires IsClockField(s)
    ensures SplitFirst(s, ':') == s[..2] && SplitSecond(s, ':') == s[3..]
  {
    NumeralHasNo(s[..2], ':');
    NumeralHasNo(s[3..], ':');
    assert s == s[..2] + [':'] + s[3..];
    SplitAt(s[..2], ':', s[3..]);
  }

  /** `field.split(':').map(Number)`: the hour and the minute a filled field shows. */
  function ReadClock(s: string): (hm: (nat, nat))
    requires IsClockField(s)
    ensures hm.0 < 24 && hm.1 < 60
    ensures hm == (DecimalValue(s[..2]), DecimalValue(s[3..]))
  {
    ClockFieldSplit(s);
    (DecimalValue(SplitFirst(s, ':')), DecimalValue(SplitSecond(s, ':')))
  }

  /** The minute of the day a filled field shows. */
  function FieldMinutes(s: string): (m: nat)
    requires IsClockField(s)
    ensures m < MinutesPerDay
  {
    var hm := ReadClock(s);
    hm.0 * 60 + hm.1
  }

  /** `new Date(base).setHours(hours, minutes)` with the field's hour and minute:
      the base's day at the field's time. */
  function ApplyClock(base: Instant, s: string): (r: Instant)
    requires IsClockField(s)
    ensures DayOf(r) == DayOf(base) && MinuteOfDay(r) == FieldMinutes(s)
  {
    var hm := ReadClock(s);
    SetHours(base, hm.0, hm.1)
  }

  /** Writing a time into a field and applying the field to the same day gives the time back. */
  lemma ClockRoundTrip(t: Instant)
    ensures ApplyClock(t, FormatClock(t)) == t
  {
    var r := ApplyClock(t, FormatClock(t));
    Decompose(r);
    Decompose(t);
  }

  /** A two-digit numeral is the zero-padded rendering of its value. */
  lemma PadTwoOfDigits(s: string)
    requires |s| == 2 && AllDigits(s)
    ensures DecimalValue(s) == 10 * DigitValue(s[0]) + DigitValue(s[1])
    ensures PadTwo(DecimalValue(s)) == s
  {
    assert s[..1][..0] == [];
    assert DecimalValue(s[..1]) == DigitValue(s[0]);
  }

  /** Applying a field and writing the result back gives the field back. */
  lemma FieldRoundTrip(base: Instant, s: string)
    requires IsClockField(s)
    ensures FormatClock(ApplyClock(base, s)) == s
  {
    var t := ApplyClock(base, s);
    var h, m := DecimalValue(s[..2]), DecimalValue(s[3..]);
    assert MinuteOfDay(t) / 60 == h && MinuteOfDay(t) % 60 == m;
    PadTwoOfDigits(s[..2]);
    PadTwoOfDigits(s[3..]);
    assert s == s[..2] + ":" + s[3..];
  }

  // ---------------------------------------------------------------------------
  // Submission

  /** The store call a submission makes: none, `startTimer`, `updateEntry` or `addEntry`. */
  datatype FormCommand =
    | NoCommand
    | StartTimerCommand(description: string, category: string)
    | UpdateCommand(id: string, patch: EntryPatch)
    | AddCommand(draft: EntryDraft)

  /** The fields `updateEntry` receives when an entry is saved: the start on the
      entry's own start day, the end (if the end field is filled) on the day of
      the entry's end, or of its start while it has none. */
  function EditPatch(entry: TimeEntry, description: string, category: string, startField: string, endField: string)
    : (p: EntryPatch)
    requires IsClockField(startField) && IsEndField(endField)
    ensures p.id.None? && p.date.None?
    ensures p.description == Some(description) && p.category == Some(category)
    ensures p.startTime.Some?
    ensures DayOf(p.startTime.value) == DayOf(entry.startTime)
    ensures MinuteOfDay(p.startTime.value) == FieldMinutes(startField)
    ensures p.endTime.Some? && (p.endTime.value.None? <==> endField == "")
    ensures endField != "" ==>
              && DayOf(p.endTime.value.value) == DayOf(entry.endTime.GetOr(entry.startTime))
              && MinuteOfDay(p.endTime.value.value) == FieldMinutes(endField)
  {
    var start := ApplyClock(entry.startTime, startField);
    var end := if endField == "" then None else Some(ApplyClock(entry.endTime.GetOr(entry.startTime), endField));
    EntryPatch(None, None, Some(start), Some(end), Some(description), Some(category))
  }

  /** Saving the fields an entry opens the form with changes nothing. */
  lemma UnchangedEditKeepsEntry(e: TimeEntry)
    ensures Merge(e, EditPatch(e, e.description, e.category, FormatClock(e.startTime), EndField(e))) == e
  {
    ClockRoundTrip(e.startTime);
    if e.endTime.Some? {
      ClockRoundTrip(e.endTime.value);
    }
  }

  /** An edit's fields are what the form shows for the saved entry when it opens again. */
  lemma EditShowsAgain(e: TimeEntry, description: string, category: string, startField: string, endField: string)
    requires IsClockField(startField) && IsEndField(endField)
    ensures var saved := Merge(e, EditPatch(e, description, category, startField, endField));
            && saved.description == description && saved.category == category
            && FormatClock(saved.startTime) == startField
            && EndField(saved) == endField
  {
    FieldRoundTrip(e.startTime, startField);
    if endField != "" {
      FieldRoundTrip(e.endTime.GetOr(e.startTime), endField);
    }
  }

  /** Saving a finished entry with its end field cleared sends `endTime: null`,
      so the stored entry is open again although no timer runs for it. */
  lemma ClearedEndReopens(e: TimeEntry, description: string, category: string, startField: string)
    requires IsClockField(startField)
    ensures var saved := Merge(e, EditPatch(e, description, category, startField, ""));
            IsOpen(saved) && saved.id == e.id
  {
  }

  /** The entry `addEntry` receives: dated now, its times today at the fields' times. */
  function AddDraft(now: Instant, description: string, category: string, startField: string, endField: string)
    : (d: EntryDraft)
    requires IsClockField(startField) && IsEndField(endField)
    ensures d.date == now && d.description == description && d.category == category
    ensures DayOf(d.startTime) == DayOf(now) && MinuteOfDay(d.startTime) == FieldMinutes(startField)
    ensures d.endTime.None? <==> endField == ""
    ensures endField != "" ==>
              DayOf(d.endTime.value) == DayOf(now) && MinuteOfDay(d.endTime.value) == FieldMinutes(endField)
  {
    var end := if endField == "" then None else Some(ApplyClock(now, endField));
    EntryDraft(now, ApplyClock(now, startField), end, description, category)
  }

  /** `dialogTitle`. */
  function DialogTitle(editing: bool, isStartingTimer: bool): (title: string)
    ensures title == "Edit Time Entry" <==> editing
    ensures title == "Start Timer" <==> !editing && isStartingTimer
    ensures title == "Add Time Entry" <==> !editing && !isStartingTimer
  {
    if editing then "Edit Time Entry"
    else if isStartingTimer then "Start Timer"
    else "Add Time Entry"
  }

  // ---------------------------------------------------------------------------
  // The form

  /** The dialog's field state. The clock (`now`) is a parameter; the dialog's
      `entry` prop is passed to the operations that read it. */
  class EntryForm {
    var description: string
    var category: string
    var startField: string
    var endField: string
    var isStartingTimer: bool

    /** Both time fields hold what a time input can hold. */
    predicate Valid()
      reads this
    {
      IsClockField(startField) && IsEndField(endField)
    }

    /** The `useState` initial values, before the effect first runs. */
    constructor ()
      ensures description == "" && category == "" && startField == "" && endField == ""
      ensures !isStartingTimer
    {
      description, category, startField, endField := "", "", "", "";
      isStartingTimer := false;
    }

    /** The effect run whenever the dialog opens or its entry changes: an entry's
        own values for editing, otherwise an empty timer form in the first category
        starting now. */
    method Reset(entry: Option<TimeEntry>, now: Instant)
      modifies this
      ensures entry.Some? ==>
                && description == entry.value.description && category == entry.value.category
                && startField == FormatClock(entry.value.startTime) && endField == EndField(entry.value)
                && !isStartingTimer
      ensures entry.None? ==>
                && description == "" && category == Categories()[0]
                && startField == FormatClock(now) && endField == ""
                && isStartingTimer
      ensures Valid()
    {
      match entry
      case Some(e) =>
        description := e.description;
        category := e.category;
        startField := FormatClock(e.startTime);
        endField := EndField(e);
        isStartingTimer := false;
      case None =>
        description := "";
        category := Categories()[0];
        startField := FormatClock(now);
        endField := "";
        isStartingTimer := true;
    }

    /** The opening effect when the dialog also receives the timeline's timer mode:
        a new entry opens as a timer only when a timer was asked for. */
    method ResetInMode(entry: Option<TimeEntry>, timerMode: bool, now: Instant)
      modifies this
      ensures entry.Some? ==>
                && description == entry.value.description && category == entry.value.category
                && startField == FormatClock(entry.value.startTime) && endField == EndField(entry.value)
      ensures entry.None? ==>
                && description == "" && category == Categories()[0]
                && startField == FormatClock(now) && endField == ""
      ensures isStartingTimer <==> entry.None? && timerMode
      ensures Valid()
    {
      Reset(entry, now);
      isStartingTimer := entry.None? && timerMode;
    }

    method SetDescription(value: string)
      modifies this`description
      ensures description == value
    {
      description := value;
    }

    method SetCategory(value: string)
      modifies this`category
      ensures category == value
    {
      category := value;
    }

    method SetStartField(value: string)
      modifies this`startField
      ensures startField == value
    {
      startField := value;
    }

    method SetEndField(value: string)
      requires IsEndField(value)
      modifies this`endField
      ensures endField == value
    {
      endField := value;
    }

    /** `handleSubmit`: nothing for a blank description; otherwise start a timer in
        timer mode, save the edited entry, or add a completed entry, and close. */
    method Submit(entry: Option<TimeEntry>, now: Instant) returns (cmd: FormCommand, closes: bool)
      requires Valid()
      ensures IsBlank(description) <==> cmd == NoCommand
      ensures closes <==> !IsBlank(description)
      ensures !IsBlank(description) && isStartingTimer ==> cmd == StartTimerCommand(description, category)
      ensures !IsBlank(description) && !isStartingTimer && entry.Some? ==>
                cmd == UpdateCommand(entry.value.id, EditPatch(entry.value, description, category, startField, endField))
      ensures !IsBlank(description) && !isStartingTimer && entry.None? ==>
                cmd == AddCommand(AddDraft(now, description, category, startField, endField))
    {
      TrimEmptyIffBlank(description);
      if Trim(description) == "" {
        return NoCommand, false;
      }
      if isStartingTimer {
        cmd := StartTimerCommand(description, category);
      } else if entry.Some? {
        var e := entry.value;
        var start := ReadClock(startField);
        var updatedStartTime := SetHours(e.startTime, start.0, start.1);
        var updatedEndTime: Option<Instant> := None;
        if endField != "" {
          var end := ReadClock(endField);
          updatedEndTime := Some(SetHours(e.endTime.GetOr(e.startTime), end.0, end.1));
        }
        cmd := UpdateCommand(e.id, EntryPatch(None, None, Some(updatedStartTime), Some(updatedEndTime),
                                              Some(description), Some(category)));
      } else {
        var start := ReadClock(startField);
        var newStartTime := SetHours(now, start.0, start.1);
        var newEndTime: Option<Instant> := None;
        if endField != "" {
          var end := ReadClock(endField);
          newEndTime := Some(SetHours(now, end.0, end.1));
        }
        cmd := AddCommand(EntryDraft(now, newStartTime, newEndTime, description, category));
      }
      closes := true;
    }
  }
}
