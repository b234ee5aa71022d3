/**
 * The chore tracker (Homecleaning/cleaning-script.js): a registry of
 * recurring tasks, a log of completions that feeds the weekly leaderboard,
 * and the weekly boundary (Sunday 23:50) after which the next page load
 * clears the log.
 */
module Chores {
  import opened Common
  import opened Calendar
  import opened StableSort
  import opened Leaderboard
  import Rollover

  const FamilyMembers: seq<string> := ["Alexandra", "Jimmy", "Emmy", "Tilde"]

  /** Tasks due within this long, or overdue, are listed. */
  const ShowThreshold: int := 7 * DAY
  /** Tasks due within this long are marked as soon. */
  const SoonThreshold: int := 12 * HOUR
  /** Interval and first due time of tasks added from the quick list. */
  const QuickTaskInterval: int := 7 * DAY
  /** The weekly reset: Sunday at 23:50. */
  const ResetMark: int := ClockTime(23, 50)

  const ManualName: string := "Manuell poängjustering"
  const ManualIcon: string := "⭐"
  const DefaultIcon: string := "📝"
  const DefaultIntervalDays: int := 7
  const MinIntervalDays: int := 1
  const MaxIntervalDays: int := 30

  datatype Task = Task(id: string, name: string, icon: string, interval: int, nextDue: int, assignee: string)

  datatype Completion = Completion(taskName: string, icon: string, cleaner: string, timestamp: int)

  datatype Template = Template(name: string, interval: int, icon: string)

  const DefaultTasks: seq<Template> := [
    Template("Dammsuga våning 1", 7 * DAY, "🧹"),
    Template("Dammsuga våning 2", 7 * DAY, "🧹"),
    Template("Städa köket", 7 * DAY, "🍳"),
    Template("Rengör badrummet", 7 * DAY, "\U{FFFD}"),
    Template("Torka golv", 7 * DAY, "🧽"),
    Template("Tömma kattlådan", 1 * DAY, "🐱"),
    Template("Torka ytor i köket", 7 * DAY, "✨"),
    Template("Sortera sopor", 7 * DAY, "🗑️")
  ]

  lemma FamilyMembersDistinct()
    ensures Distinct(FamilyMembers)
  {
  }

  // ----- the registry -----

  ghost predicate UniqueIds(tasks: seq<Task>)
  {
    forall i, j :: 0 <= i < j < |tasks| ==> tasks[i].id != tasks[j].id
  }

  /** findIndex by id: the first task with that id, or -1. */
  function IndexOfId(tasks: seq<Task>, id: string): (i: int)
    ensures -1 <= i < |tasks|
    ensures i >= 0 ==> tasks[i].id == id
    ensures forall j :: 0 <= j < |tasks| && (i < 0 || j < i) ==> tasks[j].id != id
  {
    if tasks == [] then -1
    else if tasks[0].id == id then 0
    else
      var k := IndexOfId(tasks[1..], id);
      if k < 0 then -1 else k + 1
  }

  /** The seeded ids task-0 ... task-7: "task-" and one decimal digit. */
  function SeedId(index: nat): (id: string)
    requires index < 10
    ensures |id| == 6 && id[..5] == "task-" && id[5] as int == '0' as int + index
  {
    "task-" + [(('0' as int) + index) as char]
  }

  /**
   * initializeTasks: the default tasks, the i-th due i days from now and
   * assigned round-robin over the family.
   */
  function SeedTasks(now: int): (tasks: seq<Task>)
    ensures |tasks| == |DefaultTasks|
    ensures UniqueIds(tasks)
    ensures forall i :: 0 <= i < |tasks| ==>
              && tasks[i].id == SeedId(i)
              && tasks[i].name == DefaultTasks[i].name
              && tasks[i].icon == DefaultTasks[i].icon
              && tasks[i].interval == DefaultTasks[i].interval
              && tasks[i].nextDue == now + i * DAY
              && tasks[i].assignee == FamilyMembers[i % |FamilyMembers|]
    ensures forall i :: 0 <= i < |tasks| ==> MinIntervalDays * DAY <= tasks[i].interval <= MaxIntervalDays * DAY
  {
    seq(|DefaultTasks|, i requires 0 <= i < |DefaultTasks| =>
      Task(SeedId(i), DefaultTasks[i].name, DefaultTasks[i].icon, DefaultTasks[i].interval,
           now + i * DAY, FamilyMembers[i % |FamilyMembers|]))
  }

  /** Appending a task whose id is not yet used keeps ids unique. */
  lemma AddKeepsIdsUnique(tasks: seq<Task>, t: Task)
    requires UniqueIds(tasks) && IndexOfId(tasks, t.id) == -1
    ensures UniqueIds(tasks + [t])
  {
  }

  /** Rewriting one task in place, keeping its id, keeps ids unique; so does removal. */
  lemma EditKeepsIdsUnique(tasks: seq<Task>, i: nat, t: Task)
    requires UniqueIds(tasks) && i < |tasks| && t.id == tasks[i].id
    ensures UniqueIds(tasks[i := t])
    ensures UniqueIds(tasks[..i] + tasks[i + 1..])
  {
    var r := tasks[..i] + tasks[i + 1..];
    forall a, b | 0 <= a < b < |r|
      ensures r[a].id != r[b].id
    {
      var a' := if a < i then a else a + 1;
      var b' := if b < i then b else b + 1;
      assert r[a] == tasks[a'] && r[b] == tasks[b'];
    }
  }

  // ----- the task list -----

  predicate DueWithinWindow(t: Task, now: int)
  {
    t.nextDue - now <= ShowThreshold
  }

  /** The filter of updateTasksList: due within seven days, or overdue. */
  function Upcoming(tasks: seq<Task>, now: int): (r: seq<Task>)
    ensures forall t :: multiset(r)[t] == if DueWithinWindow(t, now) then multiset(tasks)[t] else 0
  {
    if tasks == [] then []
    else
      assert tasks == [tasks[0]] + tasks[1..];
      (if DueWithinWindow(tasks[0], now) then [tasks[0]] else []) + Upcoming(tasks[1..], now)
  }

  /** The filter keeps a single task exactly when it is due within the window. */
  lemma UpcomingSingle(t: Task, now: int)
    ensures Upcoming([t], now) == if DueWithinWindow(t, now) then [t] else []
  {
    assert [t][1..] == [];
  }

  /**
   * The filter keeps registry order: filtering a concatenation is the
   * concatenation of the filtered parts.
   */
  lemma {:induction false} UpcomingKeepsOrder(a: seq<Task>, b: seq<Task>, now: int)
    ensures Upcoming(a + b, now) == Upcoming(a, now) + Upcoming(b, now)
  {
    if a == [] {
      assert a + b == b;
    } else {
      var head := if DueWithinWindow(a[0], now) then [a[0]] else [];
      assert (a + b)[0] == a[0] && (a + b)[1..] == a[1..] + b;
      calc {
        Upcoming(a + b, now);
        head + Upcoming(a[1..] + b, now);
        { UpcomingKeepsOrder(a[1..], b, now); }
        head + (Upcoming(a[1..], now) + Upcoming(b, now));
        (head + Upcoming(a[1..], now)) + Upcoming(b, now);
        Upcoming(a, now) + Upcoming(b, now);
      }
    }
  }

  function DueKey(t: Task): int { t.nextDue }

  /** Whether a task is shown depends only on its due time. */
  lemma {:induction false} UpcomingWithKey(tasks: seq<Task>, now: int, due: int)
    ensures WithKey(Upcoming(tasks, now), DueKey, due) ==
            if due - now <= ShowThreshold then WithKey(tasks, DueKey, due) else []
  {
    if tasks != [] {
      UpcomingWithKey(tasks[1..], now, due);
      var head := if DueWithinWindow(tasks[0], now) then [tasks[0]] else [];
      WithKeyAppend(head, Upcoming(tasks[1..], now), DueKey, due);
    }
  }

  /**
   * The displayed list: exactly the tasks due within seven days (every
   * overdue task among them), ascending by due time, and tasks with equal due
   * times in registry order.
   */
  function VisibleTasks(tasks: seq<Task>, now: int): (r: seq<Task>)
    ensures forall t :: multiset(r)[t] == if DueWithinWindow(t, now) then multiset(tasks)[t] else 0
    ensures forall i, j :: 0 <= i < j < |r| ==> r[i].nextDue <= r[j].nextDue
    ensures forall due :: WithKey(r, DueKey, due) ==
              if due - now <= ShowThreshold then WithKey(tasks, DueKey, due) else []
  {
    var shown := Upcoming(tasks, now);
    SortByCorrect(shown, DueKey);
    var r := SortBy(shown, DueKey);
    assert forall due :: WithKey(r, DueKey, due) == WithKey(shown, DueKey, due);
    forall due
      ensures WithKey(r, DueKey, due) == if due - now <= ShowThreshold then WithKey(tasks, DueKey, due) else []
    {
      UpcomingWithKey(tasks, now, due);
    }
    forall i, j | 0 <= i < j < |r|
      ensures r[i].nextDue <= r[j].nextDue
    {
      assert DueKey(r[i]) <= DueKey(r[j]);
    }
    r
  }

  /** A task is listed as soon as it is overdue, however long ago it fell due. */
  lemma OverdueTasksShown(tasks: seq<Task>, now: int, t: Task)
    requires t in tasks && t.nextDue < now
    ensures t in VisibleTasks(tasks, now)
  {
    assert multiset(VisibleTasks(tasks, now))[t] == multiset(tasks)[t];
  }

  lemma {:induction false} SortedInsertIdentity(x: Task, s: seq<Task>)
    requires forall y :: y in s ==> x.nextDue <= y.nextDue
    ensures Insert(x, s, DueKey) == [x] + s
  {
  }

  lemma {:induction false} SortedSortIdentity(s: seq<Task>)
    requires forall i, j :: 0 <= i < j < |s| ==> s[i].nextDue <= s[j].nextDue
    ensures SortBy(s, DueKey) == s
  {
    if s != [] {
      SortedSortIdentity(s[1..]);
      SortedInsertIdentity(s[0], s[1..]);
      assert s == [s[0]] + s[1..];
    }
  }

  lemma {:induction false} AllUpcoming(s: seq<Task>, now: int)
    requires forall t :: t in s ==> DueWithinWindow(t, now)
    ensures Upcoming(s, now) == s
  {
    if s != [] {
      AllUpcoming(s[1..], now);
      assert s == [s[0]] + s[1..];
    }
  }

  lemma DaysOrdered(i: int, j: int)
    requires i <= j
    ensures i * DAY <= j * DAY
  {
    assert j * DAY - i * DAY == (j - i) * DAY;
  }

  /** Tasks due on successive days starting today, at most eight of them, are shown as they are. */
  lemma DailyScheduleShownAsIs(s: seq<Task>, now: int)
    requires |s| <= 8
    requires forall i :: 0 <= i < |s| ==> s[i].nextDue == now + i * DAY
    ensures VisibleTasks(s, now) == s
  {
    forall t | t in s
      ensures DueWithinWindow(t, now)
    {
      var i :| 0 <= i < |s| && s[i] == t;
      DaysOrdered(i, 7);
    }
    forall i, j | 0 <= i < j < |s|
      ensures s[i].nextDue <= s[j].nextDue
    {
      DaysOrdered(i, j);
    }
    AllUpcoming(s, now);
    SortedSortIdentity(s);
  }

  /** Right after seeding, all eight default tasks are listed, in seeding order. */
  lemma SeededTasksAllShown(now: int)
    ensures VisibleTasks(SeedTasks(now), now) == SeedTasks(now)
  {
    DailyScheduleShownAsIs(SeedTasks(now), now);
  }

  datatype Urgency = Urgent | Soon | Normal

  /** The urgency class of a listed task; exactly one applies. */
  function UrgencyOf(timeUntilDue: int): (u: Urgency)
    ensures u == Urgent <==> timeUntilDue < 0
    ensures u == Soon <==> 0 <= timeUntilDue < SoonThreshold
    ensures u == Normal <==> SoonThreshold <= timeUntilDue
  {
    if timeUntilDue < 0 then Urgent
    else if timeUntilDue < SoonThreshold then Soon
    else Normal
  }

  function Severity(u: Urgency): nat
  {
    match u
    case Normal => 0
    case Soon => 1
    case Urgent => 2
  }

  /** As time passes a task's urgency only rises, until it is completed. */
  lemma UrgencyRises(nextDue: int, earlier: int, later: int)
    requires earlier <= later
    ensures Severity(UrgencyOf(nextDue - earlier)) <= Severity(UrgencyOf(nextDue - later))
  {
  }

  datatype DueText = OverdueDays(days: int) | OverdueToday | DaysLeft(days: int) | DueToday

  /** getTimeUntilText: whole days overdue or left, floored. */
  function TimeUntilText(ms: int): (t: DueText)
    ensures t.OverdueDays? ==> ms < 0 && 1 <= t.days && t.days * DAY <= -ms < (t.days + 1) * DAY
    ensures t.OverdueToday? <==> -DAY < ms < 0
    ensures t.DaysLeft? ==> 1 <= t.days && t.days * DAY <= ms < (t.days + 1) * DAY
    ensures t.DueToday? <==> 0 <= ms < DAY
  {
    if ms < 0 then
      var days := (-ms) / DAY;
      if days > 0 then OverdueDays(days) else OverdueToday
    else
      var days := ms / DAY;
      if days > 0 then DaysLeft(days) else DueToday
  }

  // ----- the completion log -----

  function Cleaners(log: seq<Completion>): (r: seq<string>)
    ensures |r| == |log| && forall i :: 0 <= i < |r| ==> r[i] == log[i].cleaner
  {
    seq(|log|, i requires 0 <= i < |log| => log[i].cleaner)
  }

  /** The leaderboard of the chore tracker over its completion log. */
  function LeaderboardData(log: seq<Completion>): (r: seq<Entry>)
    ensures |r| == |FamilyMembers|
    ensures forall m :: m in FamilyMembers <==> m in Names(r)
    ensures forall i :: 0 <= i < |r| ==> r[i].count == Count(Cleaners(log), r[i].name)
    ensures forall i, j :: 0 <= i < j < |r| ==> r[i].count >= r[j].count
    ensures forall i, j :: 0 <= i < j < |r| && r[i].count == r[j].count ==>
              RosterIndex(FamilyMembers, r[i].name) < RosterIndex(FamilyMembers, r[j].name)
  {
    FamilyMembersDistinct();
    var r := Rank(Cleaners(log), FamilyMembers);
    assert forall m :: m in FamilyMembers <==> m in multiset(Names(r));
    r
  }

  /** Logging a completion credits exactly its cleaner with one point and makes it the one the last-task display shows. */
  lemma LogCredits(log: seq<Completion>, e: Completion, member: string)
    ensures Count(Cleaners(log + [e]), member) == Count(Cleaners(log), member) + (if e.cleaner == member then 1 else 0)
    ensures Last(log + [e]) == Some(e)
  {
    assert Cleaners(log + [e]) == Cleaners(log) + [e.cleaner];
    CountAppend(Cleaners(log), [e.cleaner], member);
  }

  /** The index of the most recent completion by `member`, or -1. */
  function LastIndexBy(log: seq<Completion>, member: string): (i: int)
    ensures -1 <= i < |log|
    ensures i >= 0 ==> log[i].cleaner == member
    ensures forall j :: i < j < |log| ==> log[j].cleaner != member
  {
    if log == [] then -1
    else if log[|log| - 1].cleaner == member then |log| - 1
    else LastIndexBy(log[..|log| - 1], member)
  }

  /** Manual point decrement: drop the most recent completion by `member`, if there is one. */
  function RemoveLastBy(log: seq<Completion>, member: string): seq<Completion>
  {
    var i := LastIndexBy(log, member);
    if i < 0 then log else log[..i] + log[i + 1..]
  }

  /** adjustPoints on the log: +1 appends a manual entry, -1 removes the latest entry of the member. */
  function Adjusted(log: seq<Completion>, member: string, change: int, now: int): seq<Completion>
  {
    if change > 0 then log + [Completion(ManualName, ManualIcon, member, now)]
    else if change < 0 then RemoveLastBy(log, member)
    else log
  }

  /**
   * RemoveLastBy removes exactly one entry, the last one by `member`, and
   * keeps the others in order; with no entry by `member` it changes nothing.
   */
  lemma RemoveLastByShape(log: seq<Completion>, member: string)
    ensures (forall k :: 0 <= k < |log| ==> log[k].cleaner != member) ==> RemoveLastBy(log, member) == log
    ensures (exists k :: 0 <= k < |log| && log[k].cleaner == member) ==>
              exists i :: 0 <= i < |log| && log[i].cleaner == member &&
                (forall j :: i < j < |log| ==> log[j].cleaner != member) &&
                RemoveLastBy(log, member) == log[..i] + log[i + 1..]
  {
    var i := LastIndexBy(log, member);
    if exists k :: 0 <= k < |log| && log[k].cleaner == member {
      var k :| 0 <= k < |log| && log[k].cleaner == member;
      assert i >= 0;
    }
  }

  /** A points adjustment moves the member's count by one (never below zero) and no one else's. */
  lemma AdjustedCounts(log: seq<Completion>, member: string, change: int, now: int, other: string)
    requires other != member
    ensures var before := Count(Cleaners(log), member);
            var after := Count(Cleaners(Adjusted(log, member, change, now)), member);
            after == if change > 0 then before + 1 else if change < 0 && before > 0 then before - 1 else before
    ensures Count(Cleaners(Adjusted(log, member, change, now)), other) == Count(Cleaners(log), other)
  {
    var e := Completion(ManualName, ManualIcon, member, now);
    if change > 0 {
      LogCredits(log, e, member);
      LogCredits(log, e, other);
    } else if change < 0 {
      var i := LastIndexBy(log, member);
      var cs := Cleaners(log);
      if i < 0 {
        assert member !in cs;
        CountAbsent(cs, member);
      } else {
        assert Cleaners(log[..i] + log[i + 1..]) == cs[..i] + cs[i + 1..];
        CountRemoveAt(cs, i, member);
        CountRemoveAt(cs, i, other);
      }
    }
  }

  // ----- the edit guard -----

  /**
   * updateTaskInterval's guard as written, `days < 1 || days > 30`, rejects
   * out-of-range numbers but accepts NaN (parseInt of an emptied field).
   */
  function IntervalRejectedAsWritten(days: JsNumber): (rejected: bool)
    ensures rejected <==> days.Int? && (days.value < MinIntervalDays || days.value > MaxIntervalDays)
  {
    JsLess(days, Int(MinIntervalDays)) || JsLess(Int(MaxIntervalDays), days)
  }

  /** With the guard as written, NaN reaches the update and the interval becomes NaN * DAY. */
  lemma NaNPassesGuardAsWritten()
    ensures !IntervalRejectedAsWritten(NaN)
  {
  }

  /** The intended guard: only whole days from 1 to 30 are accepted. */
  function IntervalAccepted(days: JsNumber): (ok: bool)
    ensures ok <==> days.Int? && MinIntervalDays <= days.value <= MaxIntervalDays
    ensures ok ==> DAY <= days.value * DAY <= 30 * DAY
  {
    days.Int? && MinIntervalDays <= days.value <= MaxIntervalDays
  }

  /** The intended guard differs from the written one exactly on NaN. */
  lemma GuardsDifferOnlyOnNaN(days: JsNumber)
    ensures IntervalAccepted(days) != IntervalRejectedAsWritten(days) <==> days.Int?
  {
  }

  /** addNewRecurringTask: `parseInt(value) || 7`, so NaN and 0 fall back to seven days. */
  function FormIntervalDays(input: JsNumber): (days: int)
    ensures input.Int? && input.value != 0 ==> days == input.value
    ensures input.NaN? || input == Int(0) ==> days == DefaultIntervalDays
  {
    match input
    case Int(n) => if n != 0 then n else DefaultIntervalDays
    case NaN => DefaultIntervalDays
  }

  // ----- the store -----

  /**
   * The tracker's three localStorage keys: `cleaningTasks`,
   * `completedTasks` and `cleaningResetTime`; None is an absent key.
   */
  class ChoreTracker {
    var cleaningTasks: Option<seq<Task>>
    var completedTasks: Option<seq<Completion>>
    var cleaningResetTime: Option<JsNumber>

    /** The tracker over whatever the store holds when the page loads. */
    constructor (tasks: Option<seq<Task>>, log: Option<seq<Completion>>, resetTime: Option<JsNumber>)
      ensures cleaningTasks == tasks && completedTasks == log && cleaningResetTime == resetTime
    {
      cleaningTasks, completedTasks, cleaningResetTime := tasks, log, resetTime;
    }

    /** getTasks: the stored registry, or empty when the key is absent. */
    function Tasks(): (r: seq<Task>)
      reads this
      ensures cleaningTasks.Some? ==> r == cleaningTasks.value
      ensures cleaningTasks.None? ==> r == []
    {
      if cleaningTasks.Some? then cleaningTasks.value else []
    }

    /** getCompletedTasks: the stored log, or empty when the key is absent. */
    function Completed(): (r: seq<Completion>)
      reads this
      ensures completedTasks.Some? ==> r == completedTasks.value
      ensures completedTasks.None? ==> r == []
    {
      if completedTasks.Some? then completedTasks.value else []
    }

    method InitializeTasks(now: int)
      modifies this
      ensures cleaningTasks == Some(SeedTasks(now)) && completedTasks == Some([])
      ensures cleaningResetTime == old(cleaningResetTime)
    {
      cleaningTasks := Some(SeedTasks(now));
      completedTasks := Some([]);
    }

    /** init: the weekly check, then seeding when the registry key is absent. */
    method Init(now: int)
      modifies this
      ensures old(cleaningTasks).None? ==> cleaningTasks == Some(SeedTasks(now)) && completedTasks == Some([])
      ensures old(cleaningTasks).Some? ==> cleaningTasks == old(cleaningTasks)
      ensures old(cleaningTasks).Some? ==>
        completedTasks == (if Rollover.WeeklyCheck(old(cleaningResetTime), now, ResetMark).Roll? then Some([]) else old(completedTasks))
      ensures cleaningResetTime == Rollover.Stored(old(cleaningResetTime), Rollover.WeeklyCheck(old(cleaningResetTime), now, ResetMark))
      ensures cleaningResetTime.Some? && (cleaningResetTime.value.Int? ==> cleaningResetTime.value.value > now || cleaningResetTime == old(cleaningResetTime))
    {
      var _ := CheckWeeklyReset(now);
      if cleaningTasks.None? {
        InitializeTasks(now);
      }
    }

    /**
     * completeTask: log the completion, move the task's due time to now plus
     * its interval and hand it to the completer.  An unknown id is ignored.
     */
    method CompleteTask(taskId: string, cleaner: string, now: int)
      modifies this
      ensures IndexOfId(old(Tasks()), taskId) < 0 ==>
                cleaningTasks == old(cleaningTasks) && completedTasks == old(completedTasks)
      ensures var i := IndexOfId(old(Tasks()), taskId);
              i >= 0 ==>
                var t := old(Tasks())[i];
                && cleaningTasks == Some(old(Tasks())[i := t.(nextDue := now + t.interval, assignee := cleaner)])
                && completedTasks == Some(old(Completed()) + [Completion(t.name, t.icon, cleaner, now)])
      ensures cleaningResetTime == old(cleaningResetTime)
    {
      var tasks := Tasks();
      var i := IndexOfId(tasks, taskId);
      if i < 0 {
        return;
      }
      var task := tasks[i];
      completedTasks := Some(Completed() + [Completion(task.name, task.icon, cleaner, now)]);
      cleaningTasks := Some(tasks[i := task.(nextDue := now + task.interval, assignee := cleaner)]);
    }

    /** checkWeeklyReset at Sunday 23:50; reports whether the log was cleared. */
    method CheckWeeklyReset(now: int) returns (rolledOver: bool)
      modifies this
      ensures var c := Rollover.WeeklyCheck(old(cleaningResetTime), now, ResetMark);
              && rolledOver == c.Roll?
              && cleaningResetTime == Rollover.Stored(old(cleaningResetTime), c)
              && completedTasks == (if c.Roll? then Some([]) else old(completedTasks))
      ensures cleaningTasks == old(cleaningTasks)
    {
      var c := Rollover.WeeklyCheck(cleaningResetTime, now, ResetMark);
      rolledOver := c.Roll?;
      match c
      case Initialize(next) =>
        cleaningResetTime := Some(Int(next));
      case Roll(next) =>
        completedTasks := Some([]);
        cleaningResetTime := Some(Int(next));
      case Keep =>
    }

    /**
     * registerCompletedTask: despite its name it logs nothing; it adds a
     * weekly task of that name for the cleaner, first due in seven days.
     */
    method RegisterCompletedTask(icon: string, taskName: string, cleaner: string, now: int, id: string)
      modifies this
      ensures cleaningTasks == Some(old(Tasks()) + [Task(id, taskName, icon, QuickTaskInterval, now + QuickTaskInterval, cleaner)])
      ensures completedTasks == old(completedTasks) && cleaningResetTime == old(cleaningResetTime)
      ensures old(UniqueIds(Tasks())) && IndexOfId(old(Tasks()), id) == -1 ==> UniqueIds(Tasks())
    {
      var t := Task(id, taskName, icon, QuickTaskInterval, now + QuickTaskInterval, cleaner);
      if UniqueIds(Tasks()) && IndexOfId(Tasks(), id) == -1 {
        AddKeepsIdsUnique(Tasks(), t);
      }
      cleaningTasks := Some(Tasks() + [t]);
    }

    /** addNewTask: a task every `intervalDays` days, first due one interval from now; no range check. */
    method AddNewTask(name: string, icon: string, intervalDays: int, assignee: string, now: int, id: string)
      modifies this
      ensures cleaningTasks == Some(old(Tasks()) + [Task(id, name, icon, intervalDays * DAY, now + intervalDays * DAY, assignee)])
      ensures completedTasks == old(completedTasks) && cleaningResetTime == old(cleaningResetTime)
      ensures old(UniqueIds(Tasks())) && IndexOfId(old(Tasks()), id) == -1 ==> UniqueIds(Tasks())
    {
      var t := Task(id, name, icon, intervalDays * DAY, now + intervalDays * DAY, assignee);
      if UniqueIds(Tasks()) && IndexOfId(Tasks(), id) == -1 {
        AddKeepsIdsUnique(Tasks(), t);
      }
      cleaningTasks := Some(Tasks() + [t]);
    }

    /**
     * addNewRecurringTask with the form's trimmed icon and name, the parsed
     * interval field and the selected assignee.  An empty name is refused; an
     * empty icon becomes the memo icon; NaN or 0 days become seven.
     */
    method AddNewRecurringTask(iconInput: string, nameInput: string, intervalInput: JsNumber, assignee: string, now: int, id: string)
      returns (added: bool)
      modifies this
      ensures added <==> nameInput != ""
      ensures !added ==> cleaningTasks == old(cleaningTasks)
      ensures added ==>
                var icon := if iconInput == "" then DefaultIcon else iconInput;
                var days := FormIntervalDays(intervalInput);
                cleaningTasks == Some(old(Tasks()) + [Task(id, nameInput, icon, days * DAY, now + days * DAY, assignee)])
      ensures completedTasks == old(completedTasks) && cleaningResetTime == old(cleaningResetTime)
      ensures old(UniqueIds(Tasks())) && IndexOfId(old(Tasks()), id) == -1 ==> UniqueIds(Tasks())
    {
      if nameInput == "" {
        return false;
      }
      var icon := if iconInput == "" then DefaultIcon else iconInput;
      var days := FormIntervalDays(intervalInput);
      AddNewTask(nameInput, icon, days, assignee, now, id);
      added := true;
    }

    /**
     * updateTaskInterval with the intended guard: days outside 1..30 (or NaN)
     * change nothing; otherwise only that task's interval is set, its due
     * time and every other task untouched.
     */
    method UpdateTaskInterval(taskId: string, days: JsNumber)
      modifies this
      ensures !IntervalAccepted(days) || IndexOfId(old(Tasks()), taskId) < 0 ==> cleaningTasks == old(cleaningTasks)
      ensures var i := IndexOfId(old(Tasks()), taskId);
              IntervalAccepted(days) && i >= 0 ==>
                cleaningTasks == Some(old(Tasks())[i := old(Tasks())[i].(interval := days.value * DAY)])
      ensures completedTasks == old(completedTasks) && cleaningResetTime == old(cleaningResetTime)
      ensures old(UniqueIds(Tasks())) ==> UniqueIds(Tasks())
    {
      if !IntervalAccepted(days) {
        return;
      }
      var tasks := Tasks();
      var i := IndexOfId(tasks, taskId);
      if i >= 0 {
        var t := tasks[i].(interval := days.value * DAY);
        if UniqueIds(tasks) {
          EditKeepsIdsUnique(tasks, i, t);
        }
        cleaningTasks := Some(tasks[i := t]);
      }
    }

    /** updateTaskAssignee: only that task's assignee changes; an unknown id is ignored. */
    method UpdateTaskAssignee(taskId: string, newAssignee: string)
      modifies this
      ensures IndexOfId(old(Tasks()), taskId) < 0 ==> cleaningTasks == old(cleaningTasks)
      ensures var i := IndexOfId(old(Tasks()), taskId);
              i >= 0 ==> cleaningTasks == Some(old(Tasks())[i := old(Tasks())[i].(assignee := newAssignee)])
      ensures completedTasks == old(completedTasks) && cleaningResetTime == old(cleaningResetTime)
      ensures old(UniqueIds(Tasks())) ==> UniqueIds(Tasks())
    {
      var tasks := Tasks();
      var i := IndexOfId(tasks, taskId);
      if i >= 0 {
        var t := tasks[i].(assignee := newAssignee);
        if UniqueIds(tasks) {
          EditKeepsIdsUnique(tasks, i, t);
        }
        cleaningTasks := Some(tasks[i := t]);
      }
    }

    /** deleteTask: splice the first task with that id out; an unknown id is ignored. */
    method DeleteTask(taskId: string)
      modifies this
      ensures IndexOfId(old(Tasks()), taskId) < 0 ==> cleaningTasks == old(cleaningTasks)
      ensures var i := IndexOfId(old(Tasks()), taskId);
              i >= 0 ==> cleaningTasks == Some(old(Tasks())[..i] + old(Tasks())[i + 1..])
      ensures completedTasks == old(completedTasks) && cleaningResetTime == old(cleaningResetTime)
      ensures old(UniqueIds(Tasks())) ==> UniqueIds(Tasks()) && IndexOfId(Tasks(), taskId) == -1
    {
      var tasks := Tasks();
      var i := IndexOfId(tasks, taskId);
      if i >= 0 {
        if UniqueIds(tasks) {
          EditKeepsIdsUnique(tasks, i, tasks[i]);
          var r := tasks[..i] + tasks[i + 1..];
          forall k | 0 <= k < |r|
            ensures r[k].id != taskId
          {
            assert r[k] == tasks[if k < i then k else k + 1];
          }
        }
        cleaningTasks := Some(tasks[..i] + tasks[i + 1..]);
      }
    }

    /**
     * adjustPoints: a positive change logs a manual entry for the member, a
     * negative one scans backwards and splices out the member's most recent
     * entry; the log is written back in every case.
     */
    method AdjustPoints(member: string, change: int, now: int)
      modifies this
      ensures completedTasks == Some(Adjusted(old(Completed()), member, change, now))
      ensures cleaningTasks == old(cleaningTasks) && cleaningResetTime == old(cleaningResetTime)
    {
      var log := Completed();
      if change > 0 {
        log := log + [Completion(ManualName, ManualIcon, member, now)];
      } else if change < 0 {
        var i := |log| - 1;
        while i >= 0
          invariant -1 <= i < |log|
          invariant log == old(Completed())
          invariant forall j :: i < j < |log| ==> log[j].cleaner != member
        {
          if log[i].cleaner == member {
            assert LastIndexBy(log, member) == i;
            log := log[..i] + log[i + 1..];
            break;
          }
          i := i - 1;
        }
      }
      completedTasks := Some(log);
    }

    /** handleFooterClick after both confirmations: empty the log and forget the boundary. */
    method HandleFooterClick(confirmed1: bool, confirmed2: bool)
      modifies this
      ensures confirmed1 && confirmed2 ==> completedTasks == Some([]) && cleaningResetTime == None
      ensures !(confirmed1 && confirmed2) ==> completedTasks == old(completedTasks) && cleaningResetTime == old(cleaningResetTime)
      ensures cleaningTasks == old(cleaningTasks)
    {
      if confirmed1 && confirmed2 {
        completedTasks := Some([]);
        cleaningResetTime := None;
      }
    }
  }
}
