/**
 * The walk and feeding tracker (script.js): a countdown to the next walk, a
 * log of walks that feeds the weekly leaderboard, the weekly boundary
 * (Sunday 23:00) at which the log is cleared, and two feeding flags that
 * are cleared at the first page load on a new local day.
 */
module Walks {
  import opened Common
  import opened Calendar
  import opened Leaderboard
  import Rollover

  const FamilyMembers: seq<string> := ["Rasmus", "Maria", "Melwin", "Elliot"]

  /** Five hours between walks. */
  const WalkInterval: int := 5 * HOUR
  /** The weekly reset: Sunday at 23:00. */
  const ResetMark: int := ClockTime(23, 0)
  const WarningThreshold: int := 15 * MINUTE
  const PrepareThreshold: int := 30 * MINUTE

  datatype Walk = Walk(walker: string, timestamp: int)

  datatype Meal = Morning | Evening

  /** One feeding slot: the `morningFed`/`eveningFed` flag and its `...FedTime` key. */
  datatype Feeding = Feeding(fed: bool, time: Option<int>)

  const Unfed: Feeding := Feeding(false, None)

  lemma FamilyMembersDistinct()
    ensures Distinct(FamilyMembers)
  {
  }

  function Walkers(walks: seq<Walk>): (r: seq<string>)
    ensures |r| == |walks| && forall i :: 0 <= i < |r| ==> r[i] == walks[i].walker
  {
    seq(|walks|, i requires 0 <= i < |walks| => walks[i].walker)
  }

  /** The leaderboard of the walk tracker over its walk log. */
  function LeaderboardData(walks: seq<Walk>): (r: seq<Entry>)
    ensures |r| == |FamilyMembers|
    ensures forall m :: m in FamilyMembers <==> m in Names(r)
    ensures forall i :: 0 <= i < |r| ==> r[i].count == Count(Walkers(walks), r[i].name)
    ensures forall i, j :: 0 <= i < j < |r| ==> r[i].count >= r[j].count
    ensures forall i, j :: 0 <= i < j < |r| && r[i].count == r[j].count ==>
              RosterIndex(FamilyMembers, r[i].name) < RosterIndex(FamilyMembers, r[j].name)
  {
    FamilyMembersDistinct();
    var r := Rank(Walkers(walks), FamilyMembers);
    assert forall m :: m in FamilyMembers <==> m in multiset(Names(r));
    r
  }

  /** Logging a walk credits exactly its walker with one point and makes it the one the last-walk display shows. */
  lemma WalkCredits(walks: seq<Walk>, w: Walk, member: string)
    ensures Count(Walkers(walks + [w]), member) == Count(Walkers(walks), member) + (if w.walker == member then 1 else 0)
    ensures Last(walks + [w]) == Some(w)
  {
    assert Walkers(walks + [w]) == Walkers(walks) + [w.walker];
    CountAppend(Walkers(walks), [w.walker], member);
  }

  // ----- the countdown -----

  datatype Status = TimeUp | Warning | Prepare | Quiet

  datatype Display = Display(hours: int, minutes: int, seconds: int, status: Status)

  /**
   * updateTimerDisplay for `remaining` milliseconds: 00:00:00 and time's up
   * when nothing remains, otherwise whole hours, minutes and seconds
   * (floored) with the status chosen by the 15- and 30-minute thresholds.
   */
  function TimerDisplay(remaining: int): (d: Display)
    ensures d.status == TimeUp <==> remaining <= 0
    ensures d.status == Warning <==> 0 < remaining < WarningThreshold
    ensures d.status == Prepare <==> WarningThreshold <= remaining < PrepareThreshold
    ensures d.status == Quiet <==> PrepareThreshold <= remaining
    ensures remaining <= 0 ==> d.hours == 0 && d.minutes == 0 && d.seconds == 0
    ensures remaining > 0 ==>
              && 0 <= d.hours && 0 <= d.minutes < 60 && 0 <= d.seconds < 60
              && d.hours * HOUR + d.minutes * MINUTE + d.seconds * SECOND <= remaining
              && remaining < d.hours * HOUR + d.minutes * MINUTE + d.seconds * SECOND + SECOND
  {
    if remaining <= 0 then Display(0, 0, 0, TimeUp)
    else
      var hours := remaining / HOUR;
      var minutes := (remaining % HOUR) / MINUTE;
      var seconds := (remaining % MINUTE) / SECOND;
      ClockSplit(remaining);
      var status :=
        if remaining < WarningThreshold then Warning
        else if remaining < PrepareThreshold then Prepare
        else Quiet;
      Display(hours, minutes, seconds, status)
  }

  lemma DivModUnique(r: int, d: int, q: int, m: int)
    requires d > 0 && 0 <= m < d && r == q * d + m
    ensures r / d == q && r % d == m
  {
    var q', m' := r / d, r % d;
    assert r == q' * d + m' && 0 <= m' < d;
    assert (q - q') * d == m' - m;
    if q > q' {
      MulAtLeast(q - q', d);
    } else if q < q' {
      MulAtLeast(q' - q, d);
    }
  }

  lemma {:induction false} MulAtLeast(x: int, d: int)
    requires x >= 1 && d > 0
    ensures x * d >= d
    decreases x
  {
    if x > 1 {
      MulAtLeast(x - 1, d);
      assert x * d == (x - 1) * d + d;
    }
  }

  lemma ClockSplit(r: int)
    requires r > 0
    ensures var h, m, s := r / HOUR, (r % HOUR) / MINUTE, (r % MINUTE) / SECOND;
            && 0 <= h && 0 <= m < 60 && 0 <= s < 60
            && h * HOUR + m * MINUTE + s * SECOND == r - r % SECOND
  {
    assert HOUR == 3600000 && MINUTE == 60000 && SECOND == 1000;
    var h, rh := r / 3600000, r % 3600000;
    var m, rm := rh / 60000, rh % 60000;
    var s, rs := rm / 1000, rm % 1000;
    DivModUnique(r, 60000, 60 * h + m, rm);
    DivModUnique(r, 1000, 3600 * h + 60 * m + s, rs);
  }

  /** The shown clock is the remaining time truncated to whole seconds. */
  lemma DisplayIsWholeSeconds(remaining: int)
    requires remaining > 0
    ensures var d := TimerDisplay(remaining);
            d.hours * HOUR + d.minutes * MINUTE + d.seconds * SECOND == remaining - remaining % SECOND
  {
  }

  /** A freshly reset timer reads 05:00:00 with no status. */
  lemma FreshTimer()
    ensures TimerDisplay(WalkInterval) == Display(5, 0, 0, Quiet)
  {
  }

  function Severity(s: Status): nat
  {
    match s
    case Quiet => 0
    case Prepare => 1
    case Warning => 2
    case TimeUp => 3
  }

  /** While the next walk time stays put, the status only escalates as time passes. */
  lemma StatusEscalates(nextWalk: int, earlier: int, later: int)
    requires earlier <= later
    ensures Severity(TimerDisplay(nextWalk - earlier).status) <= Severity(TimerDisplay(nextWalk - later).status)
  {
  }

  // ----- the store -----

  /**
   * The module-level `nextWalkTime` and the store keys `nextWalkTime`,
   * `walks`, `nextResetTime`, `lastFeedingDate` and the four feeding keys;
   * None is an absent key (or, for the in-memory variable, null).
   */
  class WalkTracker {
    var nextWalkTime: Option<int>
    var storedNextWalkTime: Option<int>
    var walks: Option<seq<Walk>>
    var nextResetTime: Option<JsNumber>
    var lastFeedingDate: Option<int>
    var morning: Feeding
    var evening: Feeding

    /** A page load over whatever the store holds; the in-memory next walk time starts as null. */
    constructor (storedNext: Option<int>, log: Option<seq<Walk>>, resetTime: Option<JsNumber>,
                 feedingDate: Option<int>, morningSlot: Feeding, eveningSlot: Feeding)
      ensures nextWalkTime == None && storedNextWalkTime == storedNext && walks == log
      ensures nextResetTime == resetTime && lastFeedingDate == feedingDate
      ensures morning == morningSlot && evening == eveningSlot
    {
      nextWalkTime := None;
      storedNextWalkTime, walks, nextResetTime := storedNext, log, resetTime;
      lastFeedingDate, morning, evening := feedingDate, morningSlot, eveningSlot;
    }

    /** getWalks: the stored log, or empty when the key is absent. */
    function Walks(): (r: seq<Walk>)
      reads this
      ensures walks.Some? ==> r == walks.value
      ensures walks.None? ==> r == []
    {
      if walks.Some? then walks.value else []
    }

    function Slot(meal: Meal): Feeding
      reads this
    {
      if meal == Morning then morning else evening
    }

    /** The countdown's remaining time; a null next walk time reads as 0. */
    function Remaining(now: int): (r: int)
      reads this
      ensures nextWalkTime.Some? ==> r == nextWalkTime.value - now
      ensures nextWalkTime.None? ==> r == -now
    {
      (if nextWalkTime.Some? then nextWalkTime.value else 0) - now
    }

    /**
     * loadSavedData: a stored next walk time that is not in the past is
     * adopted; an absent or past one is replaced by now + 5 h and persisted.
     * A missing walk log is initialised to empty.
     */
    method LoadSavedData(now: int)
      modifies this
      ensures nextWalkTime == storedNextWalkTime && nextWalkTime.Some? && nextWalkTime.value >= now
      ensures old(storedNextWalkTime).Some? && old(storedNextWalkTime).value >= now ==>
                storedNextWalkTime == old(storedNextWalkTime)
      ensures old(storedNextWalkTime).None? || old(storedNextWalkTime).value < now ==>
                storedNextWalkTime == Some(now + WalkInterval)
      ensures walks == if old(walks).None? then Some([]) else old(walks)
      ensures nextResetTime == old(nextResetTime) && lastFeedingDate == old(lastFeedingDate)
      ensures morning == old(morning) && evening == old(evening)
    {
      if storedNextWalkTime.Some? {
        nextWalkTime := storedNextWalkTime;
        if nextWalkTime.value < now {
          nextWalkTime := Some(now + WalkInterval);
          storedNextWalkTime := nextWalkTime;
        }
      } else {
        nextWalkTime := Some(now + WalkInterval);
        storedNextWalkTime := nextWalkTime;
      }
      if walks.None? {
        walks := Some([]);
      }
    }

    /** checkWeeklyReset at Sunday 23:00; reports whether the walks were cleared. */
    method CheckWeeklyReset(now: int) returns (rolledOver: bool)
      modifies this
      ensures var c := Rollover.WeeklyCheck(old(nextResetTime), now, ResetMark);
              && rolledOver == c.Roll?
              && nextResetTime == Rollover.Stored(old(nextResetTime), c)
              && walks == (if c.Roll? then Some([]) else old(walks))
      ensures nextWalkTime == old(nextWalkTime) && storedNextWalkTime == old(storedNextWalkTime)
      ensures lastFeedingDate == old(lastFeedingDate) && morning == old(morning) && evening == old(evening)
    {
      var c := Rollover.WeeklyCheck(nextResetTime, now, ResetMark);
      rolledOver := c.Roll?;
      match c
      case Initialize(next) =>
        nextResetTime := Some(Int(next));
      case Roll(next) =>
        walks := Some([]);
        nextResetTime := Some(Int(next));
      case Keep =>
    }

    /**
     * checkDailyFeedingReset: on a new local day both slots are cleared and
     * today's label stored; on the same day nothing changes.  Either way the
     * stored label is today's, so a second call the same day is idle.
     */
    method CheckDailyFeedingReset(now: int)
      modifies this
      ensures lastFeedingDate == Some(DateLabel(now))
      ensures old(lastFeedingDate) != Some(DateLabel(now)) ==> morning == Unfed && evening == Unfed
      ensures old(lastFeedingDate) == Some(DateLabel(now)) ==> morning == old(morning) && evening == old(evening)
      ensures nextWalkTime == old(nextWalkTime) && storedNextWalkTime == old(storedNextWalkTime)
      ensures walks == old(walks) && nextResetTime == old(nextResetTime)
    {
      var today := DateLabel(now);
      if lastFeedingDate != Some(today) {
        morning := Unfed;
        evening := Unfed;
        lastFeedingDate := Some(today);
      }
    }

    /**
     * handleFeedingClick for one slot: an unfed slot becomes fed at `now`; a
     * fed one is cleared (flag and time) only if the undo is confirmed.  The
     * other slot is untouched.
     */
    method HandleFeedingClick(meal: Meal, now: int, confirmUndo: bool)
      modifies this
      ensures !old(Slot(meal)).fed ==> Slot(meal) == Feeding(true, Some(now))
      ensures old(Slot(meal)).fed && confirmUndo ==> Slot(meal) == Unfed
      ensures old(Slot(meal)).fed && !confirmUndo ==> Slot(meal) == old(Slot(meal))
      ensures meal == Morning ==> evening == old(evening)
      ensures meal == Evening ==> morning == old(morning)
      ensures lastFeedingDate == old(lastFeedingDate)
      ensures nextWalkTime == old(nextWalkTime) && storedNextWalkTime == old(storedNextWalkTime)
      ensures walks == old(walks) && nextResetTime == old(nextResetTime)
    {
      var slot := Slot(meal);
      var updated := slot;
      if !slot.fed {
        updated := Feeding(true, Some(now));
      } else if confirmUndo {
        updated := Unfed;
      }
      if meal == Morning {
        morning := updated;
      } else {
        evening := updated;
      }
    }

    /** addWalk: exactly one walk appended at the end of the log. */
    method AddWalk(walker: string, timestamp: int)
      modifies this
      ensures walks == Some(old(Walks()) + [Walk(walker, timestamp)])
      ensures nextWalkTime == old(nextWalkTime) && storedNextWalkTime == old(storedNextWalkTime)
      ensures nextResetTime == old(nextResetTime) && lastFeedingDate == old(lastFeedingDate)
      ensures morning == old(morning) && evening == old(evening)
    {
      walks := Some(Walks() + [Walk(walker, timestamp)]);
    }

    /** updateTimerDisplay: the weekly check on every tick, then the countdown. */
    method UpdateTimerDisplay(now: int) returns (d: Display)
      modifies this
      ensures d == TimerDisplay(old(Remaining(now)))
      ensures var c := Rollover.WeeklyCheck(old(nextResetTime), now, ResetMark);
              && nextResetTime == Rollover.Stored(old(nextResetTime), c)
              && walks == (if c.Roll? then Some([]) else old(walks))
      ensures nextWalkTime == old(nextWalkTime) && storedNextWalkTime == old(storedNextWalkTime)
      ensures lastFeedingDate == old(lastFeedingDate) && morning == old(morning) && evening == old(evening)
    {
      var _ := CheckWeeklyReset(now);
      d := TimerDisplay(Remaining(now));
    }

    /** resetTimer: the next walk is five hours from now, persisted, and the display refreshed. */
    method ResetTimer(now: int) returns (d: Display)
      modifies this
      ensures nextWalkTime == Some(now + WalkInterval) && storedNextWalkTime == Some(now + WalkInterval)
      ensures d == Display(5, 0, 0, Quiet)
      ensures var c := Rollover.WeeklyCheck(old(nextResetTime), now, ResetMark);
              && nextResetTime == Rollover.Stored(old(nextResetTime), c)
              && walks == (if c.Roll? then Some([]) else old(walks))
      ensures lastFeedingDate == old(lastFeedingDate) && morning == old(morning) && evening == old(evening)
    {
      nextWalkTime := Some(now + WalkInterval);
      storedNextWalkTime := nextWalkTime;
      d := UpdateTimerDisplay(now);
      FreshTimer();
    }

    /**
     * handleWalkButtonClick with the checked walker, if any: without one
     * nothing changes; otherwise the walk is logged at `now` and the timer
     * reset.
     */
    method HandleWalkButtonClick(selected: Option<string>, now: int) returns (d: Option<Display>)
      modifies this
      ensures selected.None? ==> d.None? && walks == old(walks) && nextWalkTime == old(nextWalkTime)
      ensures selected.None? ==> storedNextWalkTime == old(storedNextWalkTime) && nextResetTime == old(nextResetTime)
      ensures selected.Some? ==>
                var c := Rollover.WeeklyCheck(old(nextResetTime), now, ResetMark);
                && d == Some(Display(5, 0, 0, Quiet))
                && nextWalkTime == Some(now + WalkInterval) && storedNextWalkTime == nextWalkTime
                && nextResetTime == Rollover.Stored(old(nextResetTime), c)
                && walks == (if c.Roll? then Some([]) else Some(old(Walks()) + [Walk(selected.value, now)]))
      ensures lastFeedingDate == old(lastFeedingDate) && morning == old(morning) && evening == old(evening)
    {
      if selected.None? {
        return None;
      }
      AddWalk(selected.value, now);
      var shown := ResetTimer(now);
      d := Some(shown);
    }

    /** handleFooterClick after three confirmations: forget the walk log and the boundary. */
    method HandleFooterClick(ok1: bool, ok2: bool, ok3: bool)
      modifies this
      ensures ok1 && ok2 && ok3 ==> walks == None && nextResetTime == None
      ensures !(ok1 && ok2 && ok3) ==> walks == old(walks) && nextResetTime == old(nextResetTime)
      ensures nextWalkTime == old(nextWalkTime) && storedNextWalkTime == old(storedNextWalkTime)
      ensures lastFeedingDate == old(lastFeedingDate) && morning == old(morning) && evening == old(evening)
    {
      if ok1 && ok2 && ok3 {
        walks := None;
        nextResetTime := None;
      }
    }

    /**
     * init: weekly check, daily feeding check, loading the saved data, then
     * the first tick of the countdown (whose weekly check finds nothing left
     * to do).
     */
    method Init(now: int) returns (d: Display)
      modifies this
      ensures var c := Rollover.WeeklyCheck(old(nextResetTime), now, ResetMark);
              && nextResetTime == Rollover.Stored(old(nextResetTime), c)
              && walks == (if c.Roll? || old(walks).None? then Some([]) else old(walks))
      ensures lastFeedingDate == Some(DateLabel(now))
      ensures old(lastFeedingDate) != Some(DateLabel(now)) ==> morning == Unfed && evening == Unfed
      ensures old(lastFeedingDate) == Some(DateLabel(now)) ==> morning == old(morning) && evening == old(evening)
      ensures nextWalkTime == storedNextWalkTime && nextWalkTime.Some? && nextWalkTime.value >= now
      ensures old(storedNextWalkTime).Some? && old(storedNextWalkTime).value >= now ==>
                storedNextWalkTime == old(storedNextWalkTime)
      ensures old(storedNextWalkTime).None? || old(storedNextWalkTime).value < now ==>
                storedNextWalkTime == Some(now + WalkInterval)
      ensures d == TimerDisplay(nextWalkTime.value - now)
    {
      var _ := CheckWeeklyReset(now);
      CheckDailyFeedingReset(now);
      LoadSavedData(now);
      Rollover.CheckSettles(old(nextResetTime), now, ResetMark);
      d := UpdateTimerDisplay(now);
    }
  }
}
