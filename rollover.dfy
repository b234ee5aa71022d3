/**
 * checkWeeklyReset, shared by both trackers: the stored boundary is read,
 * and the tracker either initialises it, rolls over (clears its log and
 * stores the next boundary) or does nothing.  The time of day of the weekly
 * boundary is a parameter (23:50 for chores, 23:00 for walks).
 */
module Rollover {
  import opened Common
  import opened Calendar

  datatype Check =
    | Initialize(next: int)   // no boundary stored: store one, keep the log
    | Roll(next: int)         // boundary reached: clear the log, store the next one
    | Keep                    // boundary ahead, or stored text is not a number

  /**
   * `if (!saved)` initialises; otherwise `now >= parseInt(saved)` rolls over.
   * A stored value that parses to NaN compares false, so it never rolls over
   * and is never replaced.
   */
  function WeeklyCheck(saved: Option<JsNumber>, now: int, mark: int): (c: Check)
    requires 0 <= mark < DAY
    ensures c.Initialize? <==> saved.None?
    ensures c.Roll? <==> saved.Some? && saved.value.Int? && now >= saved.value.value
    ensures !c.Keep? ==> now < c.next && IsWeeklyMark(c.next, mark)
    ensures !c.Keep? ==> forall t :: now < t < c.next ==> !IsWeeklyMark(t, mark)
  {
    match saved
    case None => Initialize(NextWeeklyAt(now, mark))
    case Some(Int(b)) => if now >= b then Roll(NextWeeklyAt(now, mark)) else Keep
    case Some(NaN) => Keep
  }

  /** The stored boundary after the check. */
  function Stored(saved: Option<JsNumber>, c: Check): (s: Option<JsNumber>)
    ensures c.Keep? ==> s == saved
    ensures !c.Keep? ==> s == Some(Int(c.next))
  {
    if c.Keep? then saved else Some(Int(c.next))
  }

  /**
   * A second check at the same instant does nothing: the first one either
   * left nothing to do or stored a boundary strictly after `now`.  So the log
   * is cleared at most once per instant.
   */
  lemma CheckSettles(saved: Option<JsNumber>, now: int, mark: int)
    requires 0 <= mark < DAY
    ensures WeeklyCheck(Stored(saved, WeeklyCheck(saved, now, mark)), now, mark) == Keep
  {
  }

  /**
   * Between boundaries the check is idle: once a numeric boundary is stored,
   * checks at instants before it change nothing, and the first check at or
   * after it rolls over to a boundary within the following week.
   */
  lemma RollsOncePerBoundary(b: int, now: int, mark: int)
    requires 0 <= mark < DAY
    ensures now < b ==> WeeklyCheck(Some(Int(b)), now, mark) == Keep
    ensures now >= b ==> var c := WeeklyCheck(Some(Int(b)), now, mark);
                         c.Roll? && b <= now < c.next <= now + WEEK
  {
  }
}
