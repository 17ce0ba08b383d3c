/** Local calendar arithmetic standing in for the date-fns helpers the source uses
    (isSameDay, startOfWeek/endOfWeek with weekStartsOn = 1, addDays, Date.setHours).
    A timestamp is a whole number of minutes since 1970-01-01 00:00 local time,
    a calendar day a whole number of days since that date. */
module Calendar {

  const MinutesPerDay: int := 1440

  type Instant = int
  type Day = int

  /** The calendar day a timestamp falls on. */
  function DayOf(t: Instant): Day {
    t / MinutesPerDay
  }

  /** Minutes elapsed since midnight (hours * 60 + minutes of the local time). */
  function MinuteOfDay(t: Instant): (m: nat)
    ensures m < MinutesPerDay
  {
    t % MinutesPerDay
  }

  /** Midnight at the start of day `d`. */
  function StartOfDay(d: Day): (t: Instant)
    ensures DayOf(t) == d && MinuteOfDay(t) == 0
  {
    d * MinutesPerDay
  }

  /** The timestamp `m` minutes into day `d`, for `m` within the day. */
  lemma AtMinute(d: Day, m: int)
    requires 0 <= m < MinutesPerDay
    ensures DayOf(StartOfDay(d) + m) == d && MinuteOfDay(StartOfDay(d) + m) == m
  {
    var t := StartOfDay(d) + m;
    assert t == d * MinutesPerDay + m;
  }

  /** Every timestamp is its day's midnight plus its minute of the day. */
  lemma Decompose(t: Instant)
    ensures t == StartOfDay(DayOf(t)) + MinuteOfDay(t)
  {
  }

  /** `Date.setHours(hour, minute)` on a whole-minute timestamp: same day, new clock time.
      Values outside the day roll over into neighbouring days, as in JavaScript. */
  function SetHours(t: Instant, hour: int, minute: int): (r: Instant)
    ensures 0 <= hour * 60 + minute < MinutesPerDay ==>
              DayOf(r) == DayOf(t) && MinuteOfDay(r) == hour * 60 + minute
  {
    var r := StartOfDay(DayOf(t)) + hour * 60 + minute;
    if 0 <= hour * 60 + minute < MinutesPerDay then AtMinute(DayOf(t), hour * 60 + minute); r
    else r
  }

  /** date-fns `isSameDay`. */
  predicate IsSameDay(a: Instant, b: Instant) {
    DayOf(a) == DayOf(b)
  }

  /** Day of the week, 0 = Monday ... 6 = Sunday (1970-01-01 was a Thursday). */
  function Weekday(d: Day): (w: nat)
    ensures w < 7
  {
    (d + 3) % 7
  }

  /** The Monday of the Monday-to-Sunday week that contains `d`
      (date-fns `startOfWeek` with `weekStartsOn: 1`). */
  function MondayOf(d: Day): (m: Day)
    ensures Weekday(m) == 0
    ensures m <= d <= m + 6
  {
    d - Weekday(d)
  }

  /** The Monday is the only Monday at most six days before `d`. */
  lemma MondayOfUnique(d: Day, m: Day)
    requires Weekday(m) == 0 && m <= d <= m + 6
    ensures m == MondayOf(d)
  {
    var k := d - m;
    assert (m + 3) % 7 == 0;
    assert (d + 3) % 7 == ((m + 3) + k) % 7;
    assert (d + 3) % 7 == k;
  }

  /** date-fns `addDays`: same clock time, `n` days later. */
  function AddDays(t: Instant, n: int): (r: Instant)
    ensures DayOf(r) == DayOf(t) + n
    ensures MinuteOfDay(r) == MinuteOfDay(t)
  {
    AtMinute(DayOf(t) + n, MinuteOfDay(t));
    t + n * MinutesPerDay
  }

  /** Moving by whole weeks keeps the weekday and moves the week's Monday along. */
  lemma {:induction false} ShiftByWeeks(d: Day, k: int)
    ensures Weekday(d + 7 * k) == Weekday(d)
    ensures MondayOf(d + 7 * k) == MondayOf(d) + 7 * k
  {
    assert (d + 3 + 7 * k) % 7 == (d + 3) % 7;
    MondayOfUnique(d + 7 * k, MondayOf(d) + 7 * k);
  }

  /** A timestamp is at or after day `d`'s midnight exactly when it falls on `d`
      or later, and at or before `d`'s last minute exactly when it falls on `d` or earlier. */
  lemma DayBounds(t: Instant, d: Day)
    ensures StartOfDay(d) <= t <==> d <= DayOf(t)
    ensures t <= StartOfDay(d) + (MinutesPerDay - 1) <==> DayOf(t) <= d
  {
    Decompose(t);
  }
}
