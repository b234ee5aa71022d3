/**
 * The local calendar as the trackers see it through JavaScript's Date: a
 * timestamp in milliseconds splits into a day number and a time of day, and
 * the day number gives the weekday (0 = Sunday, as Date.getDay).  Days are of
 * fixed length; time zones and daylight-saving changes are folded into the
 * timestamp, which is read as local wall-clock time.
 */
module Calendar {

  const SECOND: int := 1000
  const MINUTE: int := 60 * SECOND
  const HOUR: int := 60 * MINUTE
  const DAY: int := 24 * HOUR
  const WEEK: int := 7 * DAY

  /** 1 January 1970, day number 0, was a Thursday. */
  const EpochWeekday: int := 4
  const Sunday: int := 0

  /** The number of the local day holding t (floor division, also before 1970). */
  function DayNumber(t: int): int { t / DAY }

  /** Milliseconds since local midnight. */
  function TimeOfDay(t: int): (r: int)
    ensures 0 <= r < DAY
  { t % DAY }

  function Weekday(t: int): (r: int)
    ensures 0 <= r < 7
  { (DayNumber(t) + EpochWeekday) % 7 }

  /** Local midnight of day number d (what setDate followed by setHours(0, 0, 0, 0) gives). */
  function Midnight(d: int): int { d * DAY }

  /** The time of day hour:minute:00.000 (setHours(hour, minute, 0, 0)). */
  function ClockTime(hour: int, minute: int): (r: int)
    requires 0 <= hour < 24 && 0 <= minute < 60
    ensures 0 <= r < DAY
  { hour * HOUR + minute * MINUTE }

  /** The label Date.toDateString gives: two instants share it iff they fall on one local day. */
  function DateLabel(t: int): (r: int)
    ensures Midnight(r) <= t < Midnight(r) + DAY
  {
    DaySplit(t);
    DayNumber(t)
  }

  /** Two instants get the same label exactly when the second lies in the local day of the first. */
  lemma SameDateLabel(t: int, u: int)
    ensures DateLabel(t) == DateLabel(u) <==> Midnight(DateLabel(t)) <= u < Midnight(DateLabel(t)) + DAY
  {
    var d := DateLabel(t);
    if Midnight(d) <= u < Midnight(d) + DAY {
      MidnightSplit(d, u - Midnight(d));
    }
  }

  /** t is a Sunday at the time of day `mark`. */
  predicate IsWeeklyMark(t: int, mark: int)
  {
    Weekday(t) == Sunday && TimeOfDay(t) == mark
  }

  lemma MidnightSplit(d: int, tod: int)
    requires 0 <= tod < DAY
    ensures DayNumber(Midnight(d) + tod) == d && TimeOfDay(Midnight(d) + tod) == tod
  {
  }

  lemma DaySplit(t: int)
    ensures t == Midnight(DayNumber(t)) + TimeOfDay(t)
  {
  }

  /** Two Sundays at the same time of day lie a whole number of weeks apart, so distinct ones at least a week. */
  lemma WeeklyMarksAWeekApart(t: int, u: int, mark: int)
    requires IsWeeklyMark(t, mark) && IsWeeklyMark(u, mark) && t < u
    ensures t + WEEK <= u
  {
    DaySplit(t);
    DaySplit(u);
    var a, b := DayNumber(t), DayNumber(u);
    assert (a + EpochWeekday) % 7 == 0 && (b + EpochWeekday) % 7 == 0;
    assert a < b;
    var qa, qb := (a + EpochWeekday) / 7, (b + EpochWeekday) / 7;
    assert a + EpochWeekday == 7 * qa && b + EpochWeekday == 7 * qb;
    assert qa < qb;
    assert b - a >= 7;
  }

  /**
   * getNextSundayAt23 with the time of day as a parameter (23:50 in the chore
   * tracker, 23:00 in the walk tracker): today at `mark` if today is Sunday
   * and that moment is still ahead, otherwise the coming Sunday at `mark`
   * (a full week ahead when today is Sunday and `mark` has passed).
   * The result is the first Sunday-at-`mark` strictly after `now`.
   */
  function NextWeeklyAt(now: int, mark: int): (r: int)
    requires 0 <= mark < DAY
    ensures now < r <= now + WEEK
    ensures IsWeeklyMark(r, mark)
    ensures forall t :: now < t < r ==> !IsWeeklyMark(t, mark)
  {
    var today := DayNumber(now);
    var daysUntilSunday := (7 - Weekday(now)) % 7;
    var r :=
      if daysUntilSunday == 0 then
        if now < Midnight(today) + mark then Midnight(today) + mark
        else Midnight(today + 7) + mark
      else Midnight(today + daysUntilSunday) + mark;
    NextWeeklyAtCorrect(now, mark, r);
    r
  }

  lemma NextWeeklyAtCorrect(now: int, mark: int, r: int)
    requires 0 <= mark < DAY
    requires r == (var today := DayNumber(now);
                   var daysUntilSunday := (7 - Weekday(now)) % 7;
                   if daysUntilSunday == 0 then
                     if now < Midnight(today) + mark then Midnight(today) + mark
                     else Midnight(today + 7) + mark
                   else Midnight(today + daysUntilSunday) + mark)
    ensures now < r <= now + WEEK
    ensures IsWeeklyMark(r, mark)
    ensures forall t :: now < t < r ==> !IsWeeklyMark(t, mark)
  {
    var today := DayNumber(now);
    var w := Weekday(now);
    var d := (7 - w) % 7;
    DaySplit(now);
    assert d == (if w == 0 then 0 else 7 - w);
    var days := if d == 0 then (if now < Midnight(today) + mark then 0 else 7) else d;
    assert r == Midnight(today + days) + mark;
    MidnightSplit(today + days, mark);
    var q := (today + EpochWeekday) / 7;
    assert today + EpochWeekday == 7 * q + w;
    assert today + days + EpochWeekday == 7 * q + w + days;
    assert w + days == 0 || w + days == 7;
    assert Weekday(r) == (7 * q + w + days) % 7;
    assert IsWeeklyMark(r, mark);
    forall t | now < t < r
      ensures !IsWeeklyMark(t, mark)
    {
      if IsWeeklyMark(t, mark) {
        WeeklyMarksAWeekApart(t, r, mark);
        assert false;
      }
    }
  }

  /** How long ago `timestamp` was, as getTimeAgo groups it (minutes, hours or days, floored). */
  datatype Ago = LessThanAMinute | MinutesAgo(minutes: int) | HoursAgo(hours: int) | DaysAgo(days: int)

  function TimeAgo(timestamp: int, now: int): (a: Ago)
    ensures a.LessThanAMinute? <==> now - timestamp < MINUTE
    ensures a.MinutesAgo? ==> 1 <= a.minutes < 60 && a.minutes * MINUTE <= now - timestamp < (a.minutes + 1) * MINUTE
    ensures a.HoursAgo? ==> 1 <= a.hours < 24 && a.hours * HOUR <= now - timestamp < (a.hours + 1) * HOUR
    ensures a.DaysAgo? ==> 1 <= a.days && a.days * DAY <= now - timestamp < (a.days + 1) * DAY
  {
    var diff := now - timestamp;
    var minutes := diff / MINUTE;
    var hours := diff / HOUR;
    var days := diff / DAY;
    if minutes < 1 then LessThanAMinute
    else if minutes < 60 then MinutesAgo(minutes)
    else if hours < 24 then HoursAgo(hours)
    else DaysAgo(days)
  }
}
