/** The time-entry store: the provider state of the timesheet (entries, selected
    date, running timer, timeline view) and the operations that replace it. */
module EntryStore {
  import opened Wrappers
  import opened Calendar
  import opened Seqs
  import opened TimeUtils

  /** The timeline granularity; only these three values exist. */
  datatype TimelineView = Days | Weeks | Months

  /** A time entry before the store gives it an id (`Omit<TimeEntry, 'id'>`). */
  datatype EntryDraft = EntryDraft(
    date: Instant,
    startTime: Instant,
    endTime: Option<Instant>,
    description: string,
    category: string)

  function WithId(draft: EntryDraft, id: string): TimeEntry {
    TimeEntry(id, draft.date, draft.startTime, draft.endTime, draft.description, draft.category)
  }

  /** Some of an entry's fields (`Partial<TimeEntry>`): `None` leaves a field as it is.
      `endTime` is `Some(None)` when the caller sets it to `null`. */
  datatype EntryPatch = EntryPatch(
    id: Option<string>,
    date: Option<Instant>,
    startTime: Option<Instant>,
    endTime: Option<Option<Instant>>,
    description: Option<string>,
    category: Option<string>)

  const NoChange: EntryPatch := EntryPatch(None, None, None, None, None, None)

  /** The patch `stopTimer` applies: `{ endTime: now }`. */
  function EndAt(now: Instant): EntryPatch {
    NoChange.(endTime := Some(Some(now)))
  }

  /** `{ ...entry, ...updatedFields }`. */
  function Merge(e: TimeEntry, p: EntryPatch): TimeEntry {
    TimeEntry(
      p.id.GetOr(e.id),
      p.date.GetOr(e.date),
      p.startTime.GetOr(e.startTime),
      p.endTime.GetOr(e.endTime),
      p.description.GetOr(e.description),
      p.category.GetOr(e.category))
  }

  /** An empty patch changes nothing, and applying a patch twice is applying it once. */
  lemma MergeLaws(e: TimeEntry, p: EntryPatch)
    ensures Merge(e, NoChange) == e
    ensures Merge(Merge(e, p), p) == Merge(e, p)
  {
  }

  function Ids(entries: seq<TimeEntry>): set<string> {
    set e | e in entries :: e.id
  }

  /** No two entries share an id. */
  predicate UniqueIds(entries: seq<TimeEntry>) {
    forall i, j :: 0 <= i < j < |entries| ==> entries[i].id != entries[j].id
  }

  /** `entries.map(entry => entry.id === id ? { ...entry, ...updatedFields } : entry)`:
      same length and order, every entry with the id patched, every other one as it was. */
  function Updated(entries: seq<TimeEntry>, id: string, p: EntryPatch): (r: seq<TimeEntry>)
    ensures |r| == |entries|
    ensures forall i :: 0 <= i < |entries| ==>
              r[i] == if entries[i].id == id then Merge(entries[i], p) else entries[i]
  {
    if entries == [] then []
    else
      [if entries[0].id == id then Merge(entries[0], p) else entries[0]]
        + Updated(entries[1..], id, p)
  }

  /** Updating an id no entry has leaves the entries as they are. */
  lemma UpdatedUnknownId(entries: seq<TimeEntry>, id: string, p: EntryPatch)
    requires id !in Ids(entries)
    ensures Updated(entries, id, p) == entries
  {
    var r := Updated(entries, id, p);
    forall i | 0 <= i < |entries| ensures r[i] == entries[i] {
      assert entries[i] in entries;
    }
  }

  /** Repeating an update changes nothing more. */
  lemma UpdatedIdempotent(entries: seq<TimeEntry>, id: string, p: EntryPatch)
    ensures Updated(Updated(entries, id, p), id, p) == Updated(entries, id, p)
  {
    var once := Updated(entries, id, p);
    var twice := Updated(once, id, p);
    forall i | 0 <= i < |entries| ensures twice[i] == once[i] {
      MergeLaws(entries[i], p);
    }
  }

  /** The filter condition of `deleteEntry`. */
  function OtherThan(id: string): TimeEntry -> bool {
    (e: TimeEntry) => e.id != id
  }

  /** `entries.filter(entry => entry.id !== id)`. */
  function Removed(entries: seq<TimeEntry>, id: string): (r: seq<TimeEntry>)
    ensures forall e :: e in r <==> e in entries && e.id != id
    ensures id !in Ids(r)
  {
    Filter(OtherThan(id), entries)
  }

  /** Deleting an unknown id changes nothing; deleting twice is deleting once. */
  lemma RemovedLaws(entries: seq<TimeEntry>, id: string)
    ensures id !in Ids(entries) ==> Removed(entries, id) == entries
    ensures Removed(Removed(entries, id), id) == Removed(entries, id)
  {
    if id !in Ids(entries) {
      FilterKeepsAll(OtherThan(id), entries);
    }
    FilterIdempotent(OtherThan(id), entries);
  }

  lemma UniqueIdsCons(e: TimeEntry, rest: seq<TimeEntry>)
    ensures UniqueIds([e] + rest) <==> e.id !in Ids(rest) && UniqueIds(rest)
  {
    var s := [e] + rest;
    if e.id in Ids(rest) {
      var x :| x in rest && x.id == e.id;
      var k :| 0 <= k < |rest| && rest[k] == x;
      assert s[0].id == s[k + 1].id;
    }
    if UniqueIds(s) {
      forall i, j | 0 <= i < j < |rest| ensures rest[i].id != rest[j].id {
        assert s[i + 1] == rest[i] && s[j + 1] == rest[j];
      }
    }
  }

  /** Removing entries keeps the remaining ids distinct. */
  lemma {:induction false} RemovedKeepsUniqueIds(entries: seq<TimeEntry>, id: string)
    requires UniqueIds(entries)
    ensures UniqueIds(Removed(entries, id))
  {
    if entries != [] {
      var rest := entries[1..];
      assert entries == [entries[0]] + rest;
      UniqueIdsCons(entries[0], rest);
      RemovedKeepsUniqueIds(rest, id);
      FilterConcat(OtherThan(id), [entries[0]], rest);
      if entries[0].id != id {
        assert Ids(Removed(rest, id)) <= Ids(rest);
        UniqueIdsCons(entries[0], Removed(rest, id));
      } else {
        assert Removed(entries, id) == Removed(rest, id);
      }
    }
  }

  /** The running-timer invariant: the active entry is open, and every open entry
      is the active one (carries its id). */
  predicate TimerConsistent(entries: seq<TimeEntry>, active: Option<TimeEntry>) {
    && (active.Some? ==> IsOpen(active.value))
    && forall e :: e in entries && IsOpen(e) ==> active.Some? && e.id == active.value.id
  }

  /** With distinct ids, the timer invariant allows at most one open entry. */
  lemma AtMostOneOpen(entries: seq<TimeEntry>, active: Option<TimeEntry>)
    requires UniqueIds(entries) && TimerConsistent(entries, active)
    ensures forall i, j ::
              0 <= i < |entries| && 0 <= j < |entries| && IsOpen(entries[i]) && IsOpen(entries[j])
              ==> i == j
  {
    forall i, j | 0 <= i < |entries| && 0 <= j < |entries| && IsOpen(entries[i]) && IsOpen(entries[j])
      ensures i == j
    {
      assert entries[i] in entries && entries[j] in entries;
    }
  }

  /** What `stopTimer` does to the entries: close the active entry's id at `now`. */
  function StopActive(entries: seq<TimeEntry>, active: Option<TimeEntry>, now: Instant): seq<TimeEntry> {
    match active
    case None => entries
    case Some(a) => Updated(entries, a.id, EndAt(now))
  }

  /** Under the timer invariant, stopping the timer leaves no open entry and keeps
      every id; entries of the stopped timer end at `now`. */
  lemma StopActiveClosesAll(entries: seq<TimeEntry>, active: Option<TimeEntry>, now: Instant)
    requires TimerConsistent(entries, active)
    ensures var r := StopActive(entries, active, now);
            && |r| == |entries|
            && (forall i :: 0 <= i < |r| ==> r[i].id == entries[i].id && !IsOpen(r[i]))
            && (forall i :: 0 <= i < |r| && active.Some? && entries[i].id == active.value.id ==>
                  r[i].endTime == Some(now))
  {
    var r := StopActive(entries, active, now);
    forall i | 0 <= i < |r| ensures r[i].id == entries[i].id && !IsOpen(r[i]) {
      assert entries[i] in entries;
    }
  }

  /** Handing the timer over: after the active entry is stopped and a new open
      entry with an unused id is appended, the new entry is the only open one. */
  lemma TimerHandOver(entries: seq<TimeEntry>, active: Option<TimeEntry>, now: Instant, e: TimeEntry)
    requires TimerConsistent(entries, active) && IsOpen(e)
    ensures var r := StopActive(entries, active, now) + [e];
            && TimerConsistent(r, Some(e))
            && forall i :: 0 <= i < |r| && IsOpen(r[i]) ==> i == |r| - 1
  {
    var stopped := StopActive(entries, active, now);
    StopActiveClosesAll(entries, active, now);
    var r := stopped + [e];
    forall x | x in r && IsOpen(x) ensures x.id == e.id {
      var k :| 0 <= k < |r| && r[k] == x;
    }
  }

  /** The provider's state and its operations, in the order the source performs
      them (each `set...` call read as taking effect at once). The clock (`now`)
      and the id generator (`newId`) are parameters. */
  class TimeEntryStore {
    var entries: seq<TimeEntry>
    var selectedDate: Instant
    var activeEntry: Option<TimeEntry>
    var timelineView: TimelineView

    /** Initial state: the given entries, today selected, no timer, daily view. */
    constructor (initial: seq<TimeEntry>, today: Instant)
      ensures entries == initial && selectedDate == today
      ensures activeEntry == None && timelineView == Days
      ensures (forall e :: e in initial ==> !IsOpen(e)) ==> TimerConsistent(entries, activeEntry)
    {
      entries := initial;
      selectedDate := today;
      activeEntry := None;
      timelineView := Days;
    }

    /** `addEntry`: append the draft under a new id. */
    method AddEntry(entry: EntryDraft, newId: string)
      modifies this`entries
      ensures entries == old(entries) + [WithId(entry, newId)]
      ensures var added := entries[|old(entries)|];
              && added.id == newId && added.date == entry.date && added.startTime == entry.startTime
              && added.endTime == entry.endTime && added.description == entry.description
              && added.category == entry.category
      ensures old(UniqueIds(entries)) && newId !in old(Ids(entries)) ==> UniqueIds(entries)
      ensures old(TimerConsistent(entries, activeEntry)) && entry.endTime.Some? ==>
                TimerConsistent(entries, activeEntry)
    {
      UniqueIdsSnoc(entries, WithId(entry, newId));
      entries := entries + [WithId(entry, newId)];
    }

    /** `updateEntry`: merge the fields into every entry with the id. */
    method UpdateEntry(id: string, updatedFields: EntryPatch)
      modifies this`entries
      ensures entries == Updated(old(entries), id, updatedFields)
      ensures id !in old(Ids(entries)) ==> entries == old(entries)
      ensures old(UniqueIds(entries)) && updatedFields.id.None? ==> UniqueIds(entries)
      ensures (old(TimerConsistent(entries, activeEntry)) && updatedFields.id.None?
                && updatedFields.endTime != Some(None)) ==> TimerConsistent(entries, activeEntry)
    {
      if id !in Ids(entries) {
        UpdatedUnknownId(entries, id, updatedFields);
      }
      var before := entries;
      entries := Updated(entries, id, updatedFields);
      if TimerConsistent(before, activeEntry) && updatedFields.id.None? && updatedFields.endTime != Some(None) {
        forall e | e in entries && IsOpen(e)
          ensures activeEntry.Some? && e.id == activeEntry.value.id
        {
          var k :| 0 <= k < |entries| && entries[k] == e;
          assert before[k] in before;
        }
      }
    }

    /** `deleteEntry`: drop every entry with the id. */
    method DeleteEntry(id: string)
      modifies this`entries
      ensures entries == Removed(old(entries), id)
      ensures old(UniqueIds(entries)) ==> UniqueIds(entries)
      ensures old(TimerConsistent(entries, activeEntry)) ==> TimerConsistent(entries, activeEntry)
    {
      if UniqueIds(entries) {
        RemovedKeepsUniqueIds(entries, id);
      }
      entries := Removed(entries, id);
    }

    /** `stopTimer`: nothing without a running timer; otherwise end the active
      entry now (through `updateEntry`) and clear the timer. */
    method StopTimer(now: Instant)
      modifies this`entries, this`activeEntry
      ensures old(activeEntry).None? ==> entries == old(entries)
      ensures entries == StopActive(old(entries), old(activeEntry), now)
      ensures activeEntry == None
      ensures old(UniqueIds(entries)) ==> UniqueIds(entries)
      ensures old(TimerConsistent(entries, activeEntry)) ==>
                TimerConsistent(entries, activeEntry) && forall e :: e in entries ==> !IsOpen(e)
    {
      if activeEntry.None? {
        return;
      }
      if TimerConsistent(entries, activeEntry) {
        StopActiveClosesAll(entries, activeEntry, now);
      }
      UpdateEntry(activeEntry.value.id, EndAt(now));
      activeEntry := None;
    }

    /** `startTimer`: stop a running timer first, then append an open entry dated
      on the selected day, starting now, and make it the active entry. */
    method StartTimer(description: string, category: string, newId: string, now: Instant)
      modifies this`entries, this`activeEntry
      ensures var e := TimeEntry(newId, selectedDate, now, None, description, category);
              && entries == StopActive(old(entries), old(activeEntry), now) + [e]
              && activeEntry == Some(e)
      ensures old(activeEntry).Some? ==>
                forall i :: 0 <= i < |entries| - 1 && entries[i].id == old(activeEntry).value.id
                  ==> entries[i].endTime == Some(now)
      ensures old(TimerConsistent(entries, activeEntry)) ==>
                && TimerConsistent(entries, activeEntry)
                && forall i :: 0 <= i < |entries| && IsOpen(entries[i]) ==> i == |entries| - 1
      ensures old(UniqueIds(entries)) && newId !in old(Ids(entries)) ==> UniqueIds(entries)
    {
      ghost var before, wasActive := entries, activeEntry;
      if activeEntry.Some? {
        StopTimer(now);
      }
      var newEntry := TimeEntry(newId, selectedDate, now, None, description, category);
      if TimerConsistent(before, wasActive) {
        TimerHandOver(before, wasActive, now, newEntry);
      }
      if UniqueIds(before) && newId !in Ids(before) {
        StartKeepsUniqueIds(before, wasActive, now, newEntry);
      }
      activeEntry := Some(newEntry);
      entries := entries + [newEntry];
    }

    /** `startTimer` as the provider runs it: `stopTimer`'s update and the append
        are both computed from the entries the handler was rendered with, and the
        append, applied last, replaces the update. A running entry is left open. */
    method StartTimerAsWritten(description: string, category: string, newId: string, now: Instant)
      modifies this`entries, this`activeEntry
      ensures var e := TimeEntry(newId, selectedDate, now, None, description, category);
              && entries == old(entries) + [e]
              && activeEntry == Some(e)
      ensures old(activeEntry).Some? && old(activeEntry).value in old(entries)
              && IsOpen(old(activeEntry).value) && old(activeEntry).value.id != newId
              ==> !TimerConsistent(entries, activeEntry)
    {
      var rendered := entries;
      if activeEntry.Some? {
        StopTimer(now);
      }
      var newEntry := TimeEntry(newId, selectedDate, now, None, description, category);
      activeEntry := Some(newEntry);
      entries := rendered + [newEntry];
      if old(activeEntry).Some? && old(activeEntry).value in old(entries) && IsOpen(old(activeEntry).value)
         && old(activeEntry).value.id != newId {
        RunningEntryStaysOpen(rendered, old(activeEntry).value, newEntry);
      }
    }

    /** The one-second display tick: re-set the active entry to a copy of itself. */
    method Tick()
      modifies this`activeEntry
      ensures activeEntry == old(activeEntry)
    {
      if activeEntry.Some? {
        var a := activeEntry.value;
        activeEntry := Some(TimeEntry(a.id, a.date, a.startTime, a.endTime, a.description, a.category));
      }
    }

    method SetSelectedDate(date: Instant)
      modifies this`selectedDate
      ensures selectedDate == date
    {
      selectedDate := date;
    }

    method SetTimelineView(view: TimelineView)
      modifies this`timelineView
      ensures timelineView == view
    {
      timelineView := view;
    }
  }

  /** Appending an entry whose id is new keeps the ids distinct. */
  lemma UniqueIdsSnoc(entries: seq<TimeEntry>, e: TimeEntry)
    ensures UniqueIds(entries) && e.id !in Ids(entries) ==> UniqueIds(entries + [e])
  {
    if UniqueIds(entries) && e.id !in Ids(entries) {
      var s := entries + [e];
      forall i, j | 0 <= i < j < |s| ensures s[i].id != s[j].id {
        if j == |entries| {
          assert s[i] in entries;
        }
      }
    }
  }

  /** Stopping the timer keeps every id, so a new entry with an unused id keeps
      the ids distinct. */
  lemma StartKeepsUniqueIds(entries: seq<TimeEntry>, active: Option<TimeEntry>, now: Instant, e: TimeEntry)
    requires UniqueIds(entries) && e.id !in Ids(entries)
    ensures UniqueIds(StopActive(entries, active, now) + [e])
  {
    var stopped := StopActive(entries, active, now);
    assert Ids(stopped) == Ids(entries) by {
      forall x | x in Ids(stopped) ensures x in Ids(entries) {
        var k :| 0 <= k < |stopped| && stopped[k].id == x;
        assert entries[k] in entries;
      }
      forall x | x in Ids(entries) ensures x in Ids(stopped) {
        var k :| 0 <= k < |entries| && entries[k].id == x;
        assert stopped[k] in stopped;
      }
    }
    UniqueIdsSnoc(stopped, e);
  }

  /** Appending a new open entry while another open entry is stored breaks the
      timer invariant for the new timer: the earlier entry is open but not active. */
  lemma RunningEntryStaysOpen(entries: seq<TimeEntry>, running: TimeEntry, e: TimeEntry)
    requires running in entries && IsOpen(running) && running.id != e.id
    ensures !TimerConsistent(entries + [e], Some(e))
  {
    assert running in entries + [e];
  }
}
