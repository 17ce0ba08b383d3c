/** The summary panel's projections over the entries: the selected day's and the
    selected week's entries, the per-day and per-category hour totals, the
    chart's scale and the panel title. */
module Stats {
  import opened Calendar
  import opened Seqs
  import opened TimeUtils
  import opened EntryStore

  // ---------------------------------------------------------------------------
  // Day and week filters

  /** `entry => isSameDay(entry.date, day)`. */
  function OnSameDay(day: Instant): TimeEntry -> bool {
    (e: TimeEntry) => IsSameDay(e.date, day)
  }

  /** The entries dated on the selected day, in their original order. */
  function SameDayEntries(entries: seq<TimeEntry>, selectedDate: Instant): (r: seq<TimeEntry>)
    ensures forall e :: e in r <==> e in entries && DayOf(e.date) == DayOf(selectedDate)
  {
    Filter(OnSameDay(selectedDate), entries)
  }

  /** `startOfWeek(selectedDate, { weekStartsOn: 1 })`: the Monday's midnight. */
  function WeekStart(selectedDate: Instant): (start: Instant)
    ensures Weekday(DayOf(start)) == 0 && MinuteOfDay(start) == 0
    ensures start <= selectedDate < start + 7 * MinutesPerDay
  {
    var monday := MondayOf(DayOf(selectedDate));
    DayBounds(selectedDate, monday);
    DayBounds(selectedDate, monday + 6);
    StartOfDay(monday)
  }

  /** `endOfWeek(selectedDate, { weekStartsOn: 1 })`: the Sunday's last minute. */
  function WeekEnd(selectedDate: Instant): (end: Instant)
    ensures end == WeekStart(selectedDate) + 7 * MinutesPerDay - 1
    ensures DayOf(end) == DayOf(WeekStart(selectedDate)) + 6 && MinuteOfDay(end) == MinutesPerDay - 1
  {
    var monday := MondayOf(DayOf(selectedDate));
    AtMinute(monday + 6, MinutesPerDay - 1);
    StartOfDay(monday + 6) + (MinutesPerDay - 1)
  }

  function InWeekOf(selectedDate: Instant): TimeEntry -> bool {
    (e: TimeEntry) => WeekStart(selectedDate) <= e.date <= WeekEnd(selectedDate)
  }

  /** The entries dated from the Monday to the Sunday of the selected week
      (both included), in their original order. */
  function WeekEntries(entries: seq<TimeEntry>, selectedDate: Instant): (r: seq<TimeEntry>)
    ensures forall e :: e in r <==>
              e in entries && MondayOf(DayOf(selectedDate)) <= DayOf(e.date) <= MondayOf(DayOf(selectedDate)) + 6
  {
    InWeekByDay(selectedDate);
    Filter(InWeekOf(selectedDate), entries)
  }

  /** The week test on timestamps is the week test on calendar days. */
  lemma InWeekByDay(selectedDate: Instant)
    ensures forall e: TimeEntry :: InWeekOf(selectedDate)(e) <==>
              MondayOf(DayOf(selectedDate)) <= DayOf(e.date) <= MondayOf(DayOf(selectedDate)) + 6
  {
    var m := MondayOf(DayOf(selectedDate));
    forall e: TimeEntry
      ensures InWeekOf(selectedDate)(e) <==> m <= DayOf(e.date) <= m + 6
    {
      DayBounds(e.date, m);
      DayBounds(e.date, m + 6);
    }
  }

  // ---------------------------------------------------------------------------
  // Splitting totals

  /** The filtered total, one entry at a time. */
  lemma FilterMinutesCons(p: TimeEntry -> bool, s: seq<TimeEntry>)
    requires s != []
    ensures TotalMinutes(Filter(p, s)) == (if p(s[0]) then EntryMinutes(s[0]) else 0) + TotalMinutes(Filter(p, s[1..]))
  {
    var head: seq<TimeEntry> := if p(s[0]) then [s[0]] else [];
    assert Filter(p, s) == head + Filter(p, s[1..]);
    TotalMinutesConcat(head, Filter(p, s[1..]));
    if p(s[0]) {
      assert TotalMinutes(head) == EntryMinutes(s[0]) + TotalMinutes(head[1..]);
    }
  }

  /** Entries passing one of two exclusive conditions total what each condition's
      entries total, added. */
  lemma {:induction false} SplitMinutes(p: TimeEntry -> bool, q: TimeEntry -> bool, both: TimeEntry -> bool,
                                        s: seq<TimeEntry>)
    requires forall e :: e in s ==> (both(e) <==> p(e) || q(e)) && !(p(e) && q(e))
    ensures TotalMinutes(Filter(both, s)) == TotalMinutes(Filter(p, s)) + TotalMinutes(Filter(q, s))
  {
    if s != [] {
      assert s[0] in s;
      assert forall e :: e in s[1..] ==> e in s;
      SplitMinutes(p, q, both, s[1..]);
      FilterMinutesCons(p, s);
      FilterMinutesCons(q, s);
      FilterMinutesCons(both, s);
    }
  }

  /** Dropping only open entries keeps the total. */
  lemma {:induction false} DropOpenMinutes(p: TimeEntry -> bool, s: seq<TimeEntry>)
    requires forall e :: e in s && !p(e) ==> IsOpen(e)
    ensures TotalMinutes(Filter(p, s)) == TotalMinutes(s)
  {
    if s != [] {
      assert s[0] in s;
      assert forall e :: e in s[1..] ==> e in s;
      DropOpenMinutes(p, s[1..]);
      FilterMinutesCons(p, s);
    }
  }

  /** A condition no entry passes leaves nothing. */
  lemma {:induction false} NothingPasses(p: TimeEntry -> bool, s: seq<TimeEntry>)
    requires forall e :: e in s ==> !p(e)
    ensures Filter(p, s) == []
  {
    if s != [] {
      assert s[0] in s;
      assert forall e :: e in s[1..] ==> e in s;
      NothingPasses(p, s[1..]);
    }
  }

  // ---------------------------------------------------------------------------
  // Daily distribution

  /** One bar of the weekly chart: the day, its short name (`format(day, 'EEE')`),
      its hours and whether it is the selected day. */
  datatype DayStat = DayStat(date: Day, name: string, hours: real, isCurrentDay: bool)

  function DayNames(): seq<string> {
    ["Mon", "Tue", "Wed", "Thu", "Fri", "Sat", "Sun"]
  }

  /** `dailyDistribution`: Monday to Sunday of the selected week, each with the
      total hours of all entries dated that day. */
  function DailyDistribution(entries: seq<TimeEntry>, selectedDate: Instant): (r: seq<DayStat>)
    ensures |r| == 7
    ensures forall i :: 0 <= i < 7 ==>
              && r[i].date == MondayOf(DayOf(selectedDate)) + i
              && r[i].name == DayNames()[i]
    ensures forall i :: 0 <= i < 7 ==> (r[i].isCurrentDay <==> i == Weekday(DayOf(selectedDate)))
  {
    var monday := MondayOf(DayOf(selectedDate));
    seq(7, i requires 0 <= i < 7 => DayStatOf(entries, selectedDate, monday + i, DayNames()[i]))
  }

  /** Each bar's hours are the total of the entries dated on its day (from all
      the entries, not only the week's). */
  lemma DayBarHours(entries: seq<TimeEntry>, selectedDate: Instant, i: nat)
    requires i < 7
    ensures DailyDistribution(entries, selectedDate)[i].hours
            == TotalHours(SameDayEntries(entries, StartOfDay(MondayOf(DayOf(selectedDate)) + i)))
  {
    var r := DailyDistribution(entries, selectedDate);
    assert r[i] == DayStatOf(entries, selectedDate, MondayOf(DayOf(selectedDate)) + i, DayNames()[i]);
  }

  /** One day's bar. */
  function DayStatOf(entries: seq<TimeEntry>, selectedDate: Instant, day: Day, name: string): DayStat {
    DayStat(day, name, TotalHours(SameDayEntries(entries, StartOfDay(day))), IsSameDay(StartOfDay(day), selectedDate))
  }

  /** The sum of the bars' hours. */
  function DayHoursSum(days: seq<DayStat>): real {
    if days == [] then 0.0 else DayHoursSum(days[..|days| - 1]) + days[|days| - 1].hours
  }

  function InFirstDays(monday: Day, k: nat): TimeEntry -> bool {
    (e: TimeEntry) => monday <= DayOf(e.date) < monday + k
  }

  function OnDay(day: Day): TimeEntry -> bool {
    (e: TimeEntry) => DayOf(e.date) == day
  }

  /** The whole minutes of the entries dated on `day`. */
  function DayMinutes(entries: seq<TimeEntry>, day: Day): int {
    TotalMinutes(Filter(OnDay(day), entries))
  }

  lemma DayHoursIsMinutes(entries: seq<TimeEntry>, day: Day)
    ensures TotalHours(SameDayEntries(entries, StartOfDay(day))) == DayMinutes(entries, day) as real / 60.0
  {
    FilterSame(OnSameDay(StartOfDay(day)), OnDay(day), entries);
    TotalHoursIsMinutes(Filter(OnDay(day), entries));
  }

  /** The first `k` days' entries are the first `k - 1` days' and those of day `k - 1`. */
  lemma FirstDaysSplit(entries: seq<TimeEntry>, monday: Day, k: nat)
    requires k > 0
    ensures TotalMinutes(Filter(InFirstDays(monday, k), entries))
            == TotalMinutes(Filter(InFirstDays(monday, k - 1), entries)) + DayMinutes(entries, monday + (k - 1))
  {
    SplitMinutes(InFirstDays(monday, k - 1), OnDay(monday + (k - 1)), InFirstDays(monday, k), entries);
  }

  lemma {:induction false} FirstDaysHours(entries: seq<TimeEntry>, days: seq<DayStat>, monday: Day)
    requires forall i :: 0 <= i < |days| ==> days[i].hours == DayMinutes(entries, monday + i) as real / 60.0
    ensures DayHoursSum(days) == TotalMinutes(Filter(InFirstDays(monday, |days|), entries)) as real / 60.0
  {
    if days == [] {
      NothingPasses(InFirstDays(monday, 0), entries);
    } else {
      var n := |days|;
      FirstDaysHours(entries, days[..n - 1], monday);
      FirstDaysSplit(entries, monday, n);
      var a := TotalMinutes(Filter(InFirstDays(monday, n - 1), entries));
      var b := DayMinutes(entries, monday + (n - 1));
      assert days[n - 1].hours == b as real / 60.0;
      assert DayHoursSum(days) == DayHoursSum(days[..n - 1]) + days[n - 1].hours;
      assert (a + b) as real / 60.0 == a as real / 60.0 + b as real / 60.0;
    }
  }

  lemma BarMinutes(entries: seq<TimeEntry>, selectedDate: Instant, i: nat)
    requires i < 7
    ensures DailyDistribution(entries, selectedDate)[i].hours
            == DayMinutes(entries, MondayOf(DayOf(selectedDate)) + i) as real / 60.0
  {
    DayBarHours(entries, selectedDate, i);
    DayHoursIsMinutes(entries, MondayOf(DayOf(selectedDate)) + i);
  }

  /** The week's entries are those of its seven days. */
  lemma WeekInMinutes(entries: seq<TimeEntry>, selectedDate: Instant)
    ensures TotalHours(WeekEntries(entries, selectedDate))
            == TotalMinutes(Filter(InFirstDays(MondayOf(DayOf(selectedDate)), 7), entries)) as real / 60.0
  {
    InWeekByDay(selectedDate);
    FilterSame(InWeekOf(selectedDate), InFirstDays(MondayOf(DayOf(selectedDate)), 7), entries);
    TotalHoursIsMinutes(WeekEntries(entries, selectedDate));
  }

  /** The seven daily totals add up to the week's total. */
  lemma DailyHoursAddUp(entries: seq<TimeEntry>, selectedDate: Instant)
    ensures DayHoursSum(DailyDistribution(entries, selectedDate)) == TotalHours(WeekEntries(entries, selectedDate))
  {
    forall i | 0 <= i < 7
      ensures DailyDistribution(entries, selectedDate)[i].hours
              == DayMinutes(entries, MondayOf(DayOf(selectedDate)) + i) as real / 60.0
    {
      BarMinutes(entries, selectedDate, i);
    }
    FirstDaysHours(entries, DailyDistribution(entries, selectedDate), MondayOf(DayOf(selectedDate)));
    WeekInMinutes(entries, selectedDate);
  }

  // ---------------------------------------------------------------------------
  // Scale of the chart

  /** `Math.max(...dailyDistribution.map(d => d.hours), 8)`. */
  function MaxDailyHours(days: seq<DayStat>): (m: real)
    ensures m >= 8.0
    ensures forall i :: 0 <= i < |days| ==> days[i].hours <= m
    ensures m == 8.0 || exists i :: 0 <= i < |days| && m == days[i].hours
  {
    if days == [] then 8.0
    else
      var rest := MaxDailyHours(days[1..]);
      if days[0].hours > rest then days[0].hours else rest
  }

  /** `day.hours ? (day.hours / maxDailyHours) * 100 : 0`: a bar's height in percent. */
  function BarHeight(hours: real, maxDailyHours: real): (h: real)
    requires maxDailyHours > 0.0
    ensures hours == 0.0 ==> h == 0.0
    ensures 0.0 <= hours <= maxDailyHours ==> 0.0 <= h <= 100.0
    ensures h * maxDailyHours == hours * 100.0
  {
    if hours == 0.0 then 0.0 else hours / maxDailyHours * 100.0
  }

  /** When no closed entry ends before it starts, every bar of the chart fits it. */
  lemma BarsFitChart(entries: seq<TimeEntry>, selectedDate: Instant, i: nat)
    requires forall e :: e in entries ==> EntryMinutes(e) >= 0
    requires i < 7
    ensures var days := DailyDistribution(entries, selectedDate);
            0.0 <= BarHeight(days[i].hours, MaxDailyHours(days)) <= 100.0
  {
    DayBarHours(entries, selectedDate, i);
    TotalHoursNonNegative(SameDayEntries(entries, StartOfDay(MondayOf(DayOf(selectedDate)) + i)));
  }

  // ---------------------------------------------------------------------------
  // Category distribution

  function InCategory(category: string): TimeEntry -> bool {
    (e: TimeEntry) => e.category == category
  }

  /** The hours the closed entries of one category add up to. */
  function CategoryHours(entries: seq<TimeEntry>, category: string): real {
    TotalHours(Filter(InCategory(category), entries))
  }

  /** The categories of the closed entries, gathered left to right as the fold
      meets them. */
  function ClosedCategories(entries: seq<TimeEntry>): set<string> {
    if entries == [] then {}
    else
      var last := entries[|entries| - 1];
      ClosedCategories(entries[..|entries| - 1]) + (if IsOpen(last) then {} else {last.category})
  }

  /** A category is gathered exactly when some closed entry carries it. */
  lemma {:induction false} ClosedCategoriesMembers(entries: seq<TimeEntry>, c: string)
    ensures c in ClosedCategories(entries) <==> exists e :: e in entries && !IsOpen(e) && e.category == c
  {
    if entries != [] {
      var n := |entries|;
      var init, last := entries[..n - 1], entries[n - 1];
      ClosedCategoriesMembers(init, c);
      assert entries == init + [last];
      if c in ClosedCategories(init) {
        var e :| e in init && !IsOpen(e) && e.category == c;
        assert e in entries;
      } else if !IsOpen(last) && last.category == c {
        assert last in entries;
      }
    }
  }

  lemma ClosedCategoriesStep(s: seq<TimeEntry>, e: TimeEntry)
    ensures ClosedCategories(s + [e]) == ClosedCategories(s) + (if IsOpen(e) then {} else {e.category})
  {
    assert (s + [e])[..|s|] == s;
  }

  /** Appending an entry adds its hours to its own category only. */
  lemma CategoryStep(s: seq<TimeEntry>, e: TimeEntry, c: string)
    ensures CategoryHours(s + [e], c) ==
              CategoryHours(s, c) + (if !IsOpen(e) && c == e.category then EntryMinutes(e) as real / 60.0 else 0.0)
  {
    FilterConcat(InCategory(c), s, [e]);
    TotalHoursConcat(Filter(InCategory(c), s), Filter(InCategory(c), [e]));
    TotalHoursBase(e);
  }

  /** The accumulated value of a category, read as 0 while absent. */
  lemma SoFar(acc: map<string, real>, s: seq<TimeEntry>, c: string)
    requires acc.Keys == ClosedCategories(s)
    requires forall c :: c in acc ==> acc[c] == CategoryHours(s, c)
    ensures (if c in acc then acc[c] else 0.0) == CategoryHours(s, c)
  {
    if c !in acc {
      CategoryHoursUnseen(s, c);
    }
  }

  /** The fold's next value for the appended entry's own category. */
  lemma AccumulateOwn(acc: map<string, real>, s: seq<TimeEntry>, e: TimeEntry)
    requires acc.Keys == ClosedCategories(s)
    requires forall c :: c in acc ==> acc[c] == CategoryHours(s, c)
    requires !IsOpen(e)
    ensures (if e.category in acc then acc[e.category] else 0.0) + EntryMinutes(e) as real / 60.0
            == CategoryHours(s + [e], e.category)
  {
    CategoryStep(s, e, e.category);
    SoFar(acc, s, e.category);
  }

  /** One step of the category fold keeps the accumulated map equal to the
      totals of the entries folded so far. */
  lemma AccumulateStep(acc: map<string, real>, s: seq<TimeEntry>, e: TimeEntry)
    requires acc.Keys == ClosedCategories(s)
    requires forall c :: c in acc ==> acc[c] == CategoryHours(s, c)
    ensures var next := if IsOpen(e) then acc
                        else acc[e.category := (if e.category in acc then acc[e.category] else 0.0)
                                               + EntryMinutes(e) as real / 60.0];
            && next.Keys == ClosedCategories(s + [e])
            && forall c :: c in next ==> next[c] == CategoryHours(s + [e], c)
  {
    ClosedCategoriesStep(s, e);
    var next := if IsOpen(e) then acc
                else acc[e.category := (if e.category in acc then acc[e.category] else 0.0)
                                       + EntryMinutes(e) as real / 60.0];
    forall c | c in next ensures next[c] == CategoryHours(s + [e], c) {
      if !IsOpen(e) && c == e.category {
        AccumulateOwn(acc, s, e);
      } else {
        CategoryStep(s, e, c);
        assert next[c] == acc[c];
      }
    }
  }

  /** `categoryDistribution`: the fold over the week's entries that skips open
      entries and adds each closed entry's hours under its category (`acc[category]`
      is read as 0 while absent). On whole-minute timestamps the millisecond
      difference over 3 600 000 is the minute difference over 60. */
  method CategoryDistribution(weekEntries: seq<TimeEntry>) returns (acc: map<string, real>)
    ensures acc.Keys == ClosedCategories(weekEntries)
    ensures forall c :: c in acc ==> acc[c] == CategoryHours(weekEntries, c)
  {
    acc := map[];
    var i := 0;
    while i < |weekEntries|
      invariant 0 <= i <= |weekEntries|
      invariant acc.Keys == ClosedCategories(weekEntries[..i])
      invariant forall c :: c in acc ==> acc[c] == CategoryHours(weekEntries[..i], c)
    {
      var entry := weekEntries[i];
      PrefixStep(weekEntries, i);
      AccumulateStep(acc, weekEntries[..i], entry);
      if entry.endTime.Some? {
        var category := entry.category;
        var hours := (entry.endTime.value - entry.startTime) as real / 60.0;
        acc := acc[category := (if category in acc then acc[category] else 0.0) + hours];
      }
      i := i + 1;
    }
    assert weekEntries[..i] == weekEntries;
  }

  /** A category with no closed entry has no hours. */
  lemma CategoryHoursUnseen(entries: seq<TimeEntry>, category: string)
    requires category !in ClosedCategories(entries)
    ensures CategoryHours(entries, category) == 0.0
  {
    ClosedCategoriesMembers(entries, category);
    var inCat := Filter(InCategory(category), entries);
    DropOpenMinutes((e: TimeEntry) => false, inCat);
    NothingPasses((e: TimeEntry) => false, inCat);
    TotalHoursIsMinutes(inCat);
  }

  /** The sum of the category totals over a list of categories. */
  function CategoryHoursSum(entries: seq<TimeEntry>, categories: seq<string>): real {
    if categories == [] then 0.0
    else CategoryHours(entries, categories[0]) + CategoryHoursSum(entries, categories[1..])
  }

  function InAnyOf(categories: seq<string>): TimeEntry -> bool {
    (e: TimeEntry) => e.category in categories
  }

  lemma {:induction false} CategoryHoursSumIsFiltered(entries: seq<TimeEntry>, categories: seq<string>)
    requires forall i, j :: 0 <= i < j < |categories| ==> categories[i] != categories[j]
    ensures CategoryHoursSum(entries, categories) == TotalHours(Filter(InAnyOf(categories), entries))
  {
    if categories == [] {
      NothingPasses(InAnyOf(categories), entries);
    } else {
      var c, rest := categories[0], categories[1..];
      CategoryHoursSumIsFiltered(entries, rest);
      forall k | 0 <= k < |rest| ensures rest[k] != c {
        assert rest[k] == categories[k + 1];
      }
      SplitMinutes(InCategory(c), InAnyOf(rest), InAnyOf(categories), entries);
      TotalHoursIsMinutes(Filter(InCategory(c), entries));
      TotalHoursIsMinutes(Filter(InAnyOf(rest), entries));
      TotalHoursIsMinutes(Filter(InAnyOf(categories), entries));
    }
  }

  /** Listing every category of a closed entry once, the category totals add up
      to the total of all the entries. */
  lemma CategoryHoursAddUp(entries: seq<TimeEntry>, categories: seq<string>)
    requires forall i, j :: 0 <= i < j < |categories| ==> categories[i] != categories[j]
    requires forall c :: c in ClosedCategories(entries) ==> c in categories
    ensures CategoryHoursSum(entries, categories) == TotalHours(entries)
  {
    CategoryHoursSumIsFiltered(entries, categories);
    forall e | e in entries && !IsOpen(e) ensures InAnyOf(categories)(e) {
      ClosedCategoriesMembers(entries, e.category);
    }
    DropOpenMinutes(InAnyOf(categories), entries);
    TotalHoursIsMinutes(Filter(InAnyOf(categories), entries));
    TotalHoursIsMinutes(entries);
  }

  // ---------------------------------------------------------------------------
  // Title

  /** `getViewTitle`. */
  function ViewTitle(view: TimelineView): (title: string)
    ensures view == Days <==> title == "Daily Summary"
    ensures view == Weeks <==> title == "Weekly Summary"
    ensures view == Months <==> title == "Monthly Summary"
  {
    match view
    case Days => "Daily Summary"
    case Weeks => "Weekly Summary"
    case Months => "Monthly Summary"
  }
}
