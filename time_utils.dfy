/** The time-entry record and the pure helpers of the timesheet's utility module:
    12-hour clock parsing and formatting, duration labels, hour totals, timeline
    positions and the category tables. */
module TimeUtils {
  import opened Wrappers
  import opened Calendar
  import opened Text
  import opened Seqs

  /** One tracked activity. `endTime == None` marks a running timer. */
  datatype TimeEntry = TimeEntry(
    id: string,
    date: Instant,
    startTime: Instant,
    endTime: Option<Instant>,
    description: string,
    category: string)

  predicate IsOpen(e: TimeEntry) {
    e.endTime.None?
  }

  // ---------------------------------------------------------------------------
  // 12-hour clock text

  /** The shape `parseTimeString` can read without throwing: digits, a colon,
      digits, a space, then the period (anything; only "am"/"pm" in any letter
      case have an effect). */
  predicate IsClockText(timeStr: string) {
    && ':' in timeStr
    && IsNumeral(SplitFirst(timeStr, ':'))
    && ' ' in SplitSecond(timeStr, ':')
    && IsNumeral(SplitFirst(SplitSecond(timeStr, ':'), ' '))
  }

  /** The 24-hour hour for a 12-hour reading. */
  function To24Hour(hour: nat, period: string): (h: nat)
    ensures 1 <= hour <= 12 && ToLower(period) == "am" ==> h == hour % 12
    ensures 1 <= hour <= 12 && ToLower(period) == "pm" ==> h == hour % 12 + 12
    ensures ToLower(period) != "am" && ToLower(period) != "pm" ==> h == hour
  {
    if ToLower(period) == "pm" && hour < 12 then hour + 12
    else if ToLower(period) == "am" && hour == 12 then 0
    else hour
  }

  /** `parseTimeString`: the clock time written in `timeStr`, on `baseDate`'s day. */
  function ParseTimeString(timeStr: string, baseDate: Instant): Instant
    requires IsClockText(timeStr)
  {
    var hours := SplitFirst(timeStr, ':');
    var minutesPart := SplitSecond(timeStr, ':');
    var minutes := SplitFirst(minutesPart, ' ');
    var period := SplitSecond(minutesPart, ' ');
    SetHours(baseDate, To24Hour(DecimalValue(hours), period), DecimalValue(minutes))
  }

  /** Reading "h:mm period" from its parts. */
  lemma ParseParts(hs: string, ms: string, period: string, baseDate: Instant)
    requires IsNumeral(hs) && IsNumeral(ms)
    requires ':' !in period && ' ' !in period
    ensures IsClockText(hs + ":" + ms + " " + period)
    ensures ParseTimeString(hs + ":" + ms + " " + period, baseDate)
         == SetHours(baseDate, To24Hour(DecimalValue(hs), period), DecimalValue(ms))
  {
    var rest := ms + " " + period;
    assert ':' !in hs by { assert forall i :: 0 <= i < |hs| ==> IsDigit(hs[i]); }
    assert ':' !in ms && ' ' !in ms by { assert forall i :: 0 <= i < |ms| ==> IsDigit(ms[i]); }
    assert ':' !in rest;
    assert hs + ":" + ms + " " + period == hs + [':'] + rest;
    SplitAt(hs, ':', rest);
    assert SplitSecond(hs + ":" + ms + " " + period, ':') == rest;
    assert rest == ms + [' '] + period;
    SplitAt(ms, ' ', period);
  }

  lemma LowerWordHasNoSeparators(period: string)
    requires ToLower(period) == "am" || ToLower(period) == "pm"
    ensures ':' !in period && ' ' !in period
  {
    assert |period| == 2;
    assert LowerChar(period[0]) == ToLower(period)[0];
    assert LowerChar(period[1]) == ToLower(period)[1];
  }

  /** The conversion table of `parseTimeString` for "h:mm AM|PM" in any letter case:
      12 AM is hour 0, 12 PM is hour 12, 1..11 PM is h + 12, any other AM hour is h.
      The time lands on `baseDate`'s calendar day. */
  lemma ParseTimeStringCases(hs: string, ms: string, period: string, baseDate: Instant)
    requires IsNumeral(hs) && IsNumeral(ms)
    requires ToLower(period) == "am" || ToLower(period) == "pm"
    requires 1 <= DecimalValue(hs) <= 12 && DecimalValue(ms) < 60
    ensures IsClockText(hs + ":" + ms + " " + period)
    ensures var t := ParseTimeString(hs + ":" + ms + " " + period, baseDate);
            var h, m := DecimalValue(hs), DecimalValue(ms);
            && DayOf(t) == DayOf(baseDate)
            && (ToLower(period) == "am" && h == 12 ==> MinuteOfDay(t) == m)
            && (ToLower(period) == "pm" && h == 12 ==> MinuteOfDay(t) == 12 * 60 + m)
            && (ToLower(period) == "pm" && h < 12 ==> MinuteOfDay(t) == (h + 12) * 60 + m)
            && (ToLower(period) == "am" && h < 12 ==> MinuteOfDay(t) == h * 60 + m)
  {
    LowerWordHasNoSeparators(period);
    ParseParts(hs, ms, period, baseDate);
    var h, m := DecimalValue(hs), DecimalValue(ms);
    var hour := To24Hour(h, period);
    var t := ParseTimeString(hs + ":" + ms + " " + period, baseDate);
    assert t == SetHours(baseDate, hour, m);
    assert hour == if ToLower(period) == "pm" then h % 12 + 12 else h % 12;
    assert hour <= 23;
    assert DayOf(t) == DayOf(baseDate) && MinuteOfDay(t) == hour * 60 + m;
  }

  /** The hour on a 12-hour clock face: 12 for midnight and noon. */
  function Hour12(h: nat): (r: nat)
    ensures 1 <= r <= 12
  {
    if h % 12 == 0 then 12 else h % 12
  }

  /** date-fns `a`: "AM" before noon, "PM" from noon on. */
  function Meridiem(h: nat): string {
    if h < 12 then "AM" else "PM"
  }

  /** The 12-hour reading converts back to the 24-hour hour. */
  lemma TwelveHourRoundTrip(h: nat)
    requires h < 24
    ensures To24Hour(Hour12(h), Meridiem(h)) == h
  {
    assert ToLower("AM") == "am" && ToLower("PM") == "pm";
  }

  /** date-fns `format(t, 'h:mm a')` as used by `formatTime`: "12:05 AM", "1:30 PM". */
  function FormatTime(t: Instant): (s: string)
    ensures IsClockText(s)
  {
    var h := MinuteOfDay(t) / 60;
    var m := MinuteOfDay(t) % 60;
    ParseParts(NatToString(Hour12(h)), PadTwo(m), Meridiem(h), t);
    NatToString(Hour12(h)) + ":" + PadTwo(m) + " " + Meridiem(h)
  }

  /** Parsing what `formatTime` prints recovers the clock time: `parseTimeString`
      inverts the 12-hour rendering for every time of day. */
  lemma FormatTimeRoundTrip(t: Instant, baseDate: Instant)
    ensures var r := ParseTimeString(FormatTime(t), baseDate);
            DayOf(r) == DayOf(baseDate) && MinuteOfDay(r) == MinuteOfDay(t)
  {
    var h := MinuteOfDay(t) / 60;
    var m := MinuteOfDay(t) % 60;
    ParseParts(NatToString(Hour12(h)), PadTwo(m), Meridiem(h), baseDate);
    NatToStringRoundTrip(Hour12(h));
    TwelveHourRoundTrip(h);
    AtMinute(DayOf(baseDate), h * 60 + m);
  }

  /** The hour labels of the timeline header, midnight to 11 PM. */
  function TimeBlocks(): seq<string> {
    [ "12:00 AM", "1:00 AM", "2:00 AM", "3:00 AM", "4:00 AM", "5:00 AM",
      "6:00 AM", "7:00 AM", "8:00 AM", "9:00 AM", "10:00 AM", "11:00 AM",
      "12:00 PM", "1:00 PM", "2:00 PM", "3:00 PM", "4:00 PM", "5:00 PM",
      "6:00 PM", "7:00 PM", "8:00 PM", "9:00 PM", "10:00 PM", "11:00 PM" ]
  }

  /** Labels 0..5 are what `formatTime` prints on those hours. */
  lemma NightBlocksAreFormatted(i: nat)
    requires 0 <= i < 6
    ensures TimeBlocks()[i] == NatToString(Hour12(i)) + ":" + PadTwo(0) + " " + Meridiem(i)
  {
    assert PadTwo(0) == "00";
    if i == 0 { assert NatToString(Hour12(0)) + ":" + PadTwo(0) + " " + Meridiem(0) == "12:00 AM"; }
    if i == 1 { assert NatToString(Hour12(1)) + ":" + PadTwo(0) + " " + Meridiem(1) == "1:00 AM"; }
    if i == 2 { assert NatToString(Hour12(2)) + ":" + PadTwo(0) + " " + Meridiem(2) == "2:00 AM"; }
    if i == 3 { assert NatToString(Hour12(3)) + ":" + PadTwo(0) + " " + Meridiem(3) == "3:00 AM"; }
    if i == 4 { assert NatToString(Hour12(4)) + ":" + PadTwo(0) + " " + Meridiem(4) == "4:00 AM"; }
    if i == 5 { assert NatToString(Hour12(5)) + ":" + PadTwo(0) + " " + Meridiem(5) == "5:00 AM"; }
  }

  /** Labels 6..11 are what `formatTime` prints on those hours. */
  lemma MorningBlocksAreFormatted(i: nat)
    requires 6 <= i < 12
    ensures TimeBlocks()[i] == NatToString(Hour12(i)) + ":" + PadTwo(0) + " " + Meridiem(i)
  {
    assert PadTwo(0) == "00";
    if i == 6 { assert NatToString(Hour12(6)) + ":" + PadTwo(0) + " " + Meridiem(6) == "6:00 AM"; }
    if i == 7 { assert NatToString(Hour12(7)) + ":" + PadTwo(0) + " " + Meridiem(7) == "7:00 AM"; }
    if i == 8 { assert NatToString(Hour12(8)) + ":" + PadTwo(0) + " " + Meridiem(8) == "8:00 AM"; }
    if i == 9 { assert NatToString(Hour12(9)) + ":" + PadTwo(0) + " " + Meridiem(9) == "9:00 AM"; }
    if i == 10 { assert NatToString(Hour12(10)) + ":" + PadTwo(0) + " " + Meridiem(10) == "10:00 AM"; }
    if i == 11 { assert NatToString(Hour12(11)) + ":" + PadTwo(0) + " " + Meridiem(11) == "11:00 AM"; }
  }

  /** Labels 12..17 are what `formatTime` prints on those hours. */
  lemma AfternoonBlocksAreFormatted(i: nat)
    requires 12 <= i < 18
    ensures TimeBlocks()[i] == NatToString(Hour12(i)) + ":" + PadTwo(0) + " " + Meridiem(i)
  {
    assert PadTwo(0) == "00";
    if i == 12 { assert NatToString(Hour12(12)) + ":" + PadTwo(0) + " " + Meridiem(12) == "12:00 PM"; }
    if i == 13 { assert NatToString(Hour12(13)) + ":" + PadTwo(0) + " " + Meridiem(13) == "1:00 PM"; }
    if i == 14 { assert NatToString(Hour12(14)) + ":" + PadTwo(0) + " " + Meridiem(14) == "2:00 PM"; }
    if i == 15 { assert NatToString(Hour12(15)) + ":" + PadTwo(0) + " " + Meridiem(15) == "3:00 PM"; }
    if i == 16 { assert NatToString(Hour12(16)) + ":" + PadTwo(0) + " " + Meridiem(16) == "4:00 PM"; }
    if i == 17 { assert NatToString(Hour12(17)) + ":" + PadTwo(0) + " " + Meridiem(17) == "5:00 PM"; }
  }

  /** Labels 18..23 are what `formatTime` prints on those hours. */
  lemma EveningBlocksAreFormatted(i: nat)
    requires 18 <= i < 24
    ensures TimeBlocks()[i] == NatToString(Hour12(i)) + ":" + PadTwo(0) + " " + Meridiem(i)
  {
    assert PadTwo(0) == "00";
    if i == 18 { assert NatToString(Hour12(18)) + ":" + PadTwo(0) + " " + Meridiem(18) == "6:00 PM"; }
    if i == 19 { assert NatToString(Hour12(19)) + ":" + PadTwo(0) + " " + Meridiem(19) == "7:00 PM"; }
    if i == 20 { assert NatToString(Hour12(20)) + ":" + PadTwo(0) + " " + Meridiem(20) == "8:00 PM"; }
    if i == 21 { assert NatToString(Hour12(21)) + ":" + PadTwo(0) + " " + Meridiem(21) == "9:00 PM"; }
    if i == 22 { assert NatToString(Hour12(22)) + ":" + PadTwo(0) + " " + Meridiem(22) == "10:00 PM"; }
    if i == 23 { assert NatToString(Hour12(23)) + ":" + PadTwo(0) + " " + Meridiem(23) == "11:00 PM"; }
  }

  /** There are 24 labels and label `i` is hour `i` on the clock: it is what
      `formatTime` prints for i:00 and parses back to i:00 on any day. */
  lemma TimeBlocksAreHours(i: nat, baseDate: Instant)
    requires i < 24
    ensures |TimeBlocks()| == 24
    ensures TimeBlocks()[i] == FormatTime(StartOfDay(0) + 60 * i)
    ensures IsClockText(TimeBlocks()[i])
    ensures var r := ParseTimeString(TimeBlocks()[i], baseDate);
            DayOf(r) == DayOf(baseDate) && MinuteOfDay(r) == 60 * i
  {
    var t := StartOfDay(0) + 60 * i;
    AtMinute(0, 60 * i);
    assert MinuteOfDay(t) / 60 == i && MinuteOfDay(t) % 60 == 0;
    assert FormatTime(t) == NatToString(Hour12(i)) + ":" + PadTwo(0) + " " + Meridiem(i);
    if i < 6 { NightBlocksAreFormatted(i); }
    else if i < 12 { MorningBlocksAreFormatted(i); }
    else if i < 18 { AfternoonBlocksAreFormatted(i); }
    else { EveningBlocksAreFormatted(i); }
    FormatTimeRoundTrip(t, baseDate);
  }

  // ---------------------------------------------------------------------------
  // Duration labels

  /** JavaScript's `%`: the remainder takes the sign of the dividend. */
  function JsRemainder(a: int, b: int): (r: int)
    requires b > 0
    ensures (a - r) % b == 0
    ensures a >= 0 ==> 0 <= r < b && r == a % b
    ensures a < 0 ==> -b < r <= 0
  {
    if a >= 0 then
      var q, r := a / b, a % b;
      assert a - r == q * b;
      MultipleRemainder(q, b);
      r
    else
      var q, m := (-a) / b, (-a) % b;
      assert a - -m == (-q) * b;
      MultipleRemainder(-q, b);
      -m
  }

  lemma MultipleRemainder(k: int, b: int)
    requires b > 0
    ensures (k * b) % b == 0
  {
    var q, r := (k * b) / b, (k * b) % b;
    assert k * b == q * b + r;
    assert r == (k - q) * b;
    MultipleBounds(k - q, b);
  }

  /** A non-zero multiple of `b` is at least `b` away from zero. */
  lemma MultipleBounds(d: int, b: int)
    requires b > 0
    ensures d >= 1 ==> d * b >= b
    ensures d <= -1 ==> d * b <= -b
  {
    if d >= 1 {
      assert d * b == b + (d - 1) * b;
    } else if d <= -1 {
      assert d * b == -b + (d + 1) * b;
    }
  }

  /** `calculateDuration`: "..." for a running entry, otherwise the whole minutes
      from start to end as "{h}h {m}m", leaving out a zero part. */
  function CalculateDuration(start: Instant, end: Option<Instant>): (shown: string)
    ensures shown == "..." <==> end.None?
  {
    match end
    case None => "..."
    case Some(e) =>
      var diffMinutes := e - start;
      // Math.floor: Dafny's `/` floors for a positive divisor
      var shown := DurationText(diffMinutes / 60, JsRemainder(diffMinutes, 60));
      assert shown[|shown| - 1] != "..."[2];
      shown
  }

  /** The text of `hours` and `minutes`, leaving out a zero part. */
  function DurationText(hours: int, minutes: int): string {
    if hours == 0 then IntToString(minutes) + "m"
    else if minutes == 0 then IntToString(hours) + "h"
    else IntToString(hours) + "h " + IntToString(minutes) + "m"
  }

  /** Reads a label of the form "{m}m", "{h}h" or "{h}h {m}m" (m < 60 where an
      hour part is present) back into minutes. */
  function ParseDurationLabel(s: string): Option<nat> {
    if 'h' in s then
      var k := IndexOf(s, 'h');
      ParseHoursLabel(s[..k], s[k + 1..])
    else ParseMinutesLabel(s)
  }

  /** "{m}m". */
  function ParseMinutesLabel(s: string): Option<nat> {
    if |s| >= 2 && s[|s| - 1] == 'm' && IsNumeral(s[..|s| - 1]) then Some(DecimalValue(s[..|s| - 1]))
    else None
  }

  /** The hour numeral `hs` and what follows its 'h': nothing, or " {m}m" with m < 60. */
  function ParseHoursLabel(hs: string, rest: string): Option<nat> {
    if !IsNumeral(hs) then None
    else if rest == [] then Some(60 * DecimalValue(hs))
    else if rest[0] != ' ' then None
    else
      match ParseMinutesLabel(rest[1..])
      case Some(m) => if m < 60 then Some(60 * DecimalValue(hs) + m) else None
      case None => None
  }

  lemma NumeralHasNo(s: string, c: char)
    requires AllDigits(s) && !IsDigit(c)
    ensures c !in s
  {
  }

  lemma ReadMinutesLabel(ms: string)
    requires IsNumeral(ms)
    ensures ParseMinutesLabel(ms + "m") == Some(DecimalValue(ms))
  {
    var s := ms + "m";
    assert s[..|s| - 1] == ms;
  }

  /** Reads back the text before and after the first 'h' of `hs + "h" + rest`. */
  lemma ReadAfterHours(hs: string, rest: string)
    requires IsNumeral(hs)
    ensures ParseDurationLabel(hs + "h" + rest) == ParseHoursLabel(hs, rest)
  {
    NumeralHasNo(hs, 'h');
    var s := hs + "h" + rest;
    assert s == hs + ['h'] + rest;
    IndexOfAt(hs, 'h', rest);
    assert s[..|hs|] == hs && s[|hs| + 1..] == rest;
  }

  lemma ReadMinutesPart(hs: string, ms: string)
    requires IsNumeral(hs) && IsNumeral(ms) && DecimalValue(ms) < 60
    ensures ParseHoursLabel(hs, " " + ms + "m") == Some(60 * DecimalValue(hs) + DecimalValue(ms))
  {
    var rest := " " + ms + "m";
    assert rest[0] == ' ' && rest[1..] == ms + "m";
    ReadMinutesLabel(ms);
  }

  /** The label of a non-negative duration determines it: reading it back gives
      the number of minutes, so different durations never share a label. */
  lemma DurationLabelRoundTrip(start: Instant, d: nat)
    ensures ParseDurationLabel(CalculateDuration(start, Some(start + d))) == Some(d)
  {
    var h, m := d / 60, d % 60;
    assert d == 60 * h + m;
    assert JsRemainder(d, 60) == m;
    var text := CalculateDuration(start, Some(start + d));
    assert text == DurationText(h, m);
    DurationTextRoundTrip(h, m);
    assert ParseDurationLabel(text) == Some(60 * h + m);
  }

  /** The three shapes of a non-negative duration's label: minutes alone under an
      hour, hours alone on a whole hour, otherwise both. */
  lemma DurationShapes(start: Instant, d: nat)
    ensures var shown, h, m := CalculateDuration(start, Some(start + d)), d / 60, d % 60;
            && (h == 0 ==> shown == NatToString(m) + "m")
            && (h > 0 && m == 0 ==> shown == NatToString(h) + "h")
            && (h > 0 && m > 0 ==> shown == NatToString(h) + "h " + NatToString(m) + "m")
  {
    var h, m := d / 60, d % 60;
    assert JsRemainder(d, 60) == m;
    assert CalculateDuration(start, Some(start + d)) == DurationText(h, m);
  }

  /** Reading back the text of `h` hours and `m < 60` minutes. */
  lemma DurationTextRoundTrip(h: nat, m: nat)
    requires m < 60
    ensures ParseDurationLabel(DurationText(h, m)) == Some(60 * h + m)
  {
    var text := DurationText(h, m);
    var hs, ms := NatToString(h), NatToString(m);
    assert IntToString(h) == hs && IntToString(m) == ms;
    if h == 0 {
      assert text == ms + "m";
      MinutesLabelRoundTrip(m, text);
    } else if m == 0 {
      assert text == hs + "h" + [];
      HoursLabelRoundTrip(h, text);
    } else {
      assert text == hs + "h" + (" " + ms + "m");
      HoursMinutesLabelRoundTrip(h, m, text);
    }
  }

  lemma MinutesLabelRoundTrip(m: nat, text: string)
    requires text == NatToString(m) + "m"
    ensures ParseDurationLabel(text) == Some(m)
  {
    var ms := NatToString(m);
    NatToStringRoundTrip(m);
    NumeralHasNo(ms, 'h');
    assert 'h' !in ms + "m";
    ReadMinutesLabel(ms);
  }

  lemma HoursLabelRoundTrip(h: nat, text: string)
    requires text == NatToString(h) + "h" + []
    ensures ParseDurationLabel(text) == Some(60 * h)
  {
    NatToStringRoundTrip(h);
    ReadAfterHours(NatToString(h), []);
  }

  lemma HoursMinutesLabelRoundTrip(h: nat, m: nat, text: string)
    requires m < 60 && text == NatToString(h) + "h" + (" " + NatToString(m) + "m")
    ensures ParseDurationLabel(text) == Some(60 * h + m)
  {
    NatToStringRoundTrip(h);
    NatToStringRoundTrip(m);
    ReadAfterHours(NatToString(h), " " + NatToString(m) + "m");
    ReadMinutesPart(NatToString(h), NatToString(m));
  }

  /** The worked examples: 09:00 to 10:30, 09:45 and 11:00. */
  lemma DurationExamples(day: Day)
    ensures var nine := StartOfDay(day) + 9 * 60;
            && CalculateDuration(nine, Some(nine + 90)) == "1h 30m"
            && CalculateDuration(nine, Some(nine + 45)) == "45m"
            && CalculateDuration(nine, Some(nine + 120)) == "2h"
            && CalculateDuration(nine, Some(nine)) == "0m"
            && CalculateDuration(nine, None) == "..."
  {
    var nine := StartOfDay(day) + 9 * 60;
    assert NatToString(30) == "30" && NatToString(45) == "45";
  }

  // ---------------------------------------------------------------------------
  // Hour totals

  /** Whole minutes an entry has run: `differenceInMinutes(end, start)`, 0 while open. */
  function EntryMinutes(e: TimeEntry): int {
    match e.endTime
    case None => 0
    case Some(end) => end - e.startTime
  }

  /** `calculateTotalHours`: `reduce` from 0, adding `diffMinutes / 60` for every
      closed entry and skipping open ones. */
  function TotalHours(entries: seq<TimeEntry>): real {
    HoursFrom(0.0, entries)
  }

  /** The reducer run from the running total `total` over `entries`, left to right. */
  function HoursFrom(total: real, entries: seq<TimeEntry>): real
    decreases entries
  {
    if entries == [] then total
    else
      var entry := entries[0];
      HoursFrom(if entry.endTime.None? then total else total + EntryMinutes(entry) as real / 60.0, entries[1..])
  }

  /** The sum of whole-minute durations of the closed entries. */
  function TotalMinutes(entries: seq<TimeEntry>): int {
    if entries == [] then 0 else EntryMinutes(entries[0]) + TotalMinutes(entries[1..])
  }

  lemma {:induction false} TotalMinutesConcat(a: seq<TimeEntry>, b: seq<TimeEntry>)
    ensures TotalMinutes(a + b) == TotalMinutes(a) + TotalMinutes(b)
  {
    if a == [] {
      assert a + b == b;
    } else {
      assert (a + b)[1..] == a[1..] + b;
      TotalMinutesConcat(a[1..], b);
    }
  }

  /** The reducer adds the summed whole minutes over sixty to its start value. */
  lemma {:induction false} HoursFromIsMinutes(total: real, entries: seq<TimeEntry>)
    ensures HoursFrom(total, entries) == total + TotalMinutes(entries) as real / 60.0
    decreases entries
  {
    if entries != [] {
      var entry := entries[0];
      var next := if entry.endTime.None? then total else total + EntryMinutes(entry) as real / 60.0;
      HoursFromIsMinutes(next, entries[1..]);
      assert next == total + EntryMinutes(entry) as real / 60.0;
    }
  }

  /** The total is the summed whole minutes over sixty. */
  lemma TotalHoursIsMinutes(entries: seq<TimeEntry>)
    ensures TotalHours(entries) == TotalMinutes(entries) as real / 60.0
  {
    HoursFromIsMinutes(0.0, entries);
  }

  /** The total is additive over concatenation. */
  lemma TotalHoursConcat(a: seq<TimeEntry>, b: seq<TimeEntry>)
    ensures TotalHours(a + b) == TotalHours(a) + TotalHours(b)
  {
    TotalHoursIsMinutes(a);
    TotalHoursIsMinutes(b);
    TotalHoursIsMinutes(a + b);
    TotalMinutesConcat(a, b);
  }

  /** The total of no entries is 0 and that of one entry is its elapsed hours
      (0 while it is open). */
  lemma TotalHoursBase(e: TimeEntry)
    ensures TotalHours([]) == 0.0
    ensures TotalHours([e]) == EntryMinutes(e) as real / 60.0
    ensures IsOpen(e) ==> TotalHours([e]) == 0.0
  {
    assert [e][1..] == [];
    TotalHoursIsMinutes([e]);
  }

  /** Open entries contribute nothing: dropping them leaves the total unchanged. */
  lemma {:induction false} TotalHoursSkipsOpen(entries: seq<TimeEntry>)
    ensures TotalHours(Filter(e => !IsOpen(e), entries)) == TotalHours(entries)
  {
    if entries != [] {
      assert entries == [entries[0]] + entries[1..];
      TotalHoursSkipsOpen(entries[1..]);
      FilterConcat(e => !IsOpen(e), [entries[0]], entries[1..]);
      TotalHoursConcat([entries[0]], entries[1..]);
      TotalHoursConcat(Filter(e => !IsOpen(e), [entries[0]]), Filter(e => !IsOpen(e), entries[1..]));
      TotalHoursBase(entries[0]);
    }
  }

  /** With every closed entry ending no earlier than it started, the total is not negative. */
  lemma {:induction false} TotalHoursNonNegative(entries: seq<TimeEntry>)
    requires forall e :: e in entries ==> EntryMinutes(e) >= 0
    ensures TotalHours(entries) >= 0.0
  {
    TotalMinutesNonNegative(entries);
    TotalHoursIsMinutes(entries);
  }

  lemma {:induction false} TotalMinutesNonNegative(entries: seq<TimeEntry>)
    requires forall e :: e in entries ==> EntryMinutes(e) >= 0
    ensures TotalMinutes(entries) >= 0
  {
    if entries != [] {
      assert entries[0] in entries;
      assert forall e :: e in entries[1..] ==> e in entries;
      TotalMinutesNonNegative(entries[1..]);
    }
  }

  // ---------------------------------------------------------------------------
  // Timeline position

  /** `calculateTimelinePosition`: the time of day as a percentage of 24 hours. */
  function TimelinePosition(time: Instant): (p: real)
    ensures 0.0 <= p < 100.0
  {
    var hours := MinuteOfDay(time) / 60;
    var minutes := MinuteOfDay(time) % 60;
    (hours * 60 + minutes) as real / 1440.0 * 100.0
  }

  /** The position orders times of day exactly as the clock does: it is monotone,
      and equal positions mean equal times of day. */
  lemma TimelinePositionOrder(a: Instant, b: Instant)
    ensures TimelinePosition(a) <= TimelinePosition(b) <==> MinuteOfDay(a) <= MinuteOfDay(b)
    ensures TimelinePosition(a) == TimelinePosition(b) <==> MinuteOfDay(a) == MinuteOfDay(b)
  {
    assert TimelinePosition(a) == MinuteOfDay(a) as real * (100.0 / 1440.0);
    assert TimelinePosition(b) == MinuteOfDay(b) as real * (100.0 / 1440.0);
  }

  /** Midnight is at 0%, noon at 50%. */
  lemma TimelinePositionLandmarks(d: Day)
    ensures TimelinePosition(StartOfDay(d)) == 0.0
    ensures TimelinePosition(StartOfDay(d) + 12 * 60) == 50.0
  {
    AtMinute(d, 12 * 60);
  }

  // ---------------------------------------------------------------------------
  // Categories

  /** `getCategories`. */
  function Categories(): (categories: seq<string>)
    ensures |categories| == 7
    ensures forall i, j :: 0 <= i < j < |categories| ==> categories[i] != categories[j]
  {
    ["Meeting", "Development", "Design", "Research", "Planning", "Client Work", "Other"]
  }

  const DefaultColor: string := "timesheet-gray"

  function CategoryColors(): map<string, string> {
    map[
      "Meeting" := "timesheet-indigo",
      "Development" := "timesheet-blue",
      "Design" := "timesheet-purple",
      "Research" := "timesheet-teal",
      "Planning" := "timesheet-green",
      "Client Work" := "timesheet-orange",
      "Other" := "timesheet-gray"]
  }

  /** `getCategoryColor`: the token of a known category, gray for anything else. */
  function CategoryColor(category: string): (color: string)
    ensures category !in Categories() ==> color == DefaultColor
    ensures color == DefaultColor <==> category !in Categories()[..6]
  {
    if category in CategoryColors() then CategoryColors()[category] else DefaultColor
  }

  /** Each listed category has its own token, in the listed order. */
  lemma CategoryColorTable()
    ensures |Categories()| == 7
    ensures CategoryColor("Meeting") == "timesheet-indigo"
    ensures CategoryColor("Development") == "timesheet-blue"
    ensures CategoryColor("Design") == "timesheet-purple"
    ensures CategoryColor("Research") == "timesheet-teal"
    ensures CategoryColor("Planning") == "timesheet-green"
    ensures CategoryColor("Client Work") == "timesheet-orange"
    ensures CategoryColor("Other") == "timesheet-gray"
    ensures forall i, j :: 0 <= i < j < 7 ==> CategoryColor(Categories()[i]) != CategoryColor(Categories()[j])
  {
  }
}
