# Household trackers: chores, walks and feeding

This project is a Dafny model of the state logic of two small browser apps
for a family.

- **Chore tracker** (`Homecleaning/cleaning-script.js`):
  - a registry of recurring cleaning tasks, each with an interval, a next due time and an assignee;
  - a log of completions;
  - a leaderboard counted from that log;
  - a weekly boundary, Sunday at 23:50. The page checks it only when it loads, so the log is emptied at the first load at or after the boundary.
- **Walk tracker** (`script.js`):
  - a five-hour countdown to the dog's next walk;
  - a log of walks with the same kind of leaderboard;
  - a weekly boundary, Sunday at 23:00, checked on load and on every countdown tick;
  - a morning and an evening feeding flag, cleared at the first page load on a new local day.

Each app keeps its state in `localStorage`. The apps are modelled as one `class` each, `Chores.ChoreTracker` and `Walks.WalkTracker`:

- each store key is a field, and `None` means the key is absent;
- the operations that read, change and write back those keys are methods whose `ensures` give the whole new state;
- the calculations are functions: the task list shown, urgency, due texts, the leaderboard, the countdown display, "how long ago" and the next weekly boundary.

Modules:

| module | contents |
|---|---|
| `Common` | `Option`; the last entry of a log; JavaScript numbers read from strings (`Int` or `NaN`, where every comparison with `NaN` is false) |
| `Calendar` | local time as day number, weekday (0 = Sunday) and time of day, with days of fixed length; `NextWeeklyAt`, the next Sunday at a given time strictly after `now`; `TimeAgo` |
| `StableSort` | `Array.prototype.sort` with a numeric comparator, as a stable insertion sort by an integer key: sorted, a permutation, and stable |
| `Leaderboard` | `getLeaderboardData`, shared by both apps: counting and ranking over a fixed roster |
| `Rollover` | `checkWeeklyReset`, shared by both apps: the three outcomes of the weekly check |
| `Chores` | the chore tracker |
| `Walks` | the walk and feeding tracker |

Time is always an explicit `now` parameter, in milliseconds. A confirmation dialog's answer is a `bool` parameter. Form fields arrive as parameters, already trimmed. An interval field arrives as a parsed `JsNumber`. A new task's id is a parameter too. Uniqueness of ids is therefore stated as an implication in `ensures` ("if the ids were unique and the new id is unused, they stay unique"), not assumed.

A non-empty stored weekly boundary that parses to `NaN` is not treated as absent (an empty string would be, but the code never writes one). `parseInt` of such a value gives `NaN`, and `now >= NaN` is false. So the weekly check neither re-initialises nor rolls over, ever. `Rollover.WeeklyCheck` returns `Keep` for a stored `NaN`, as the code does.

## Model

| member | source | states |
|---|---|---|
| Calendar.DateLabel | script.js:137-139 | toDateString: the label is the day whose local midnight starts the day holding the instant |
| Calendar.SameDateLabel | script.js:137-141 | two instants share a label exactly when the second lies in the local day of the first, so the feeding flags are cleared exactly when the day differs |
| Calendar.NextWeeklyAt | Homecleaning/cleaning-script.js:557-577 | getNextSundayAt23 (23:50 here, 23:00 in script.js:82-107): the result is a Sunday at the given time of day, strictly after now and at most a week later, and no such moment lies between now and it |
| Calendar.TimeAgo | Homecleaning/cleaning-script.js:529-546 | getTimeAgo (same code in script.js:416-433): "less than a minute" exactly when the gap is under a minute; otherwise whole minutes (1..59), hours (1..23) or days, each floored so that n units <= gap < n+1 units |
| Common.Last | Homecleaning/cleaning-script.js:513-523 | the last-task display (and the last-walk display, script.js:397-406): none exactly when the log is empty, otherwise its final entry |
| Rollover.WeeklyCheck | Homecleaning/cleaning-script.js:579-600 | checkWeeklyReset: initialises exactly when no boundary is stored; rolls over exactly when a numeric boundary is stored and now >= it; a new boundary is a Sunday at the mark strictly after now with none in between; a NaN boundary never fires |
| Rollover.CheckSettles | Homecleaning/cleaning-script.js:579-600 | a second weekly check at the same instant does nothing, so the log is cleared at most once per instant |
| Rollover.RollsOncePerBoundary | script.js:109-133 | with a numeric boundary stored, checks before it change nothing; the first check at or after it rolls over to a boundary after now and within a week |
| StableSort.SortByCorrect | Homecleaning/cleaning-script.js:203 | the sort by a numeric comparator returns a permutation of its input, ascending by key, and keeps the input order among elements with equal keys |
| StableSort.SortByTiesOrdered | Homecleaning/cleaning-script.js:462-465 | sorting an input that is strictly ascending in some position measure leaves equal-keyed elements ascending in that measure |
| Leaderboard.Rank | Homecleaning/cleaning-script.js:446-466 | getLeaderboardData: every roster member exactly once; each count equals the number of logged events naming that member (others are ignored); non-increasing by count; equal counts in roster order |
| Leaderboard.CountRemoveAt | Homecleaning/cleaning-script.js:1236-1243 | removing one logged event lowers only its actor's count, by one |
| Chores.IndexOfId | Homecleaning/cleaning-script.js:98 | findIndex by id: -1 exactly when no task has the id, otherwise the first index holding it |
| Chores.SeedTasks | Homecleaning/cleaning-script.js:62-76 | initializeTasks: the eight default tasks with the unique ids task-0 to task-7; the i-th is due i days from now and assigned to family member i mod 4; intervals between 1 and 30 days |
| Chores.SeededTasksAllShown | Homecleaning/cleaning-script.js:191-203 | just after seeding, the task list shows all eight default tasks, in seeding order |
| Chores.Upcoming | Homecleaning/cleaning-script.js:197-200 | the filter keeps exactly the tasks due within seven days (with their multiplicity), dropping the rest |
| Chores.UpcomingSingle | Homecleaning/cleaning-script.js:197-200 | a single task is kept exactly when it is due within seven days |
| Chores.UpcomingKeepsOrder | Homecleaning/cleaning-script.js:197-200 | the filter keeps registry order: filtering a concatenation gives the filtered parts in the same order |
| Chores.VisibleTasks | Homecleaning/cleaning-script.js:191-203 | the task list holds exactly the tasks with nextDue - now <= 7 days, in ascending nextDue; for each due time, its tasks appear in registry order |
| Chores.OverdueTasksShown | Homecleaning/cleaning-script.js:197-200 | every overdue task is listed, however long ago it fell due |
| Chores.UrgencyOf | Homecleaning/cleaning-script.js:217-222 | urgent iff timeUntilDue < 0; soon iff 0 <= timeUntilDue < 12 h; normal iff timeUntilDue >= 12 h; so exactly one applies |
| Chores.UrgencyRises | Homecleaning/cleaning-script.js:217-222 | for a fixed due time, urgency never falls as time passes |
| Chores.TimeUntilText | Homecleaning/cleaning-script.js:243-263 | getTimeUntilText: overdue by n >= 1 whole days, or overdue today when less than a day late; n >= 1 days left, or today when less than a day remains; n is floored |
| Chores.LeaderboardData | Homecleaning/cleaning-script.js:446-466 | the chore leaderboard: each of the four family members once, with their number of logged completions, non-increasing, ties in roster order |
| Chores.LogCredits | Homecleaning/cleaning-script.js:106-113 | appending a completion adds one point to its cleaner only and makes it the last completion |
| Chores.LastIndexBy | Homecleaning/cleaning-script.js:1236-1243 | the backward scan: -1, or an index whose entry is by the member with no later entry by the member |
| Chores.RemoveLastByShape | Homecleaning/cleaning-script.js:1236-1243 | the decrement removes exactly the member's most recent entry and keeps the others in order; with no entry by the member it changes nothing |
| Chores.AdjustedCounts | Homecleaning/cleaning-script.js:1224-1246 | adjustPoints moves the member's count by +1, by -1, or by 0 when decrementing from zero, and leaves every other member's count unchanged |
| Chores.IntervalRejectedAsWritten | Homecleaning/cleaning-script.js:1066-1070 | the guard as written rejects exactly the numbers below 1 or above 30, and so lets NaN through |
| Chores.NaNPassesGuardAsWritten | Homecleaning/cleaning-script.js:1067 | the guard as written does not reject NaN |
| Chores.IntervalAccepted | Homecleaning/cleaning-script.js:1066-1070 | the intended guard accepts exactly an integer from 1 to 30, giving an interval between 1 and 30 days |
| Chores.GuardsDifferOnlyOnNaN | Homecleaning/cleaning-script.js:1067 | the intended and the written guard agree on every number and differ on NaN |
| Chores.FormIntervalDays | Homecleaning/cleaning-script.js:1119 | `parseInt(...) \|\| 7`: a non-zero number is kept, and NaN or 0 become seven days |
| Chores.ChoreTracker.Tasks | Homecleaning/cleaning-script.js:78-81 | getTasks: the stored registry, or empty when the key is absent |
| Chores.ChoreTracker.Completed | Homecleaning/cleaning-script.js:87-90 | getCompletedTasks: the stored log, or empty when the key is absent |
| Chores.ChoreTracker.InitializeTasks | Homecleaning/cleaning-script.js:62-76 | the registry becomes the seeded tasks, and the log becomes empty |
| Chores.ChoreTracker.Init | Homecleaning/cleaning-script.js:33-41 | the weekly check runs first; then the registry is seeded only when its key is absent; with a registry present, the log is emptied exactly on rollover and otherwise kept |
| Chores.ChoreTracker.CompleteTask | Homecleaning/cleaning-script.js:96-118 | unknown id: nothing changes; otherwise one entry {name, icon, cleaner, now} is appended to the log, and only that task changes, to nextDue = now + interval with the completer as assignee |
| Chores.ChoreTracker.CheckWeeklyReset | Homecleaning/cleaning-script.js:579-600 | the store after the weekly check: the new boundary, and an empty log exactly on rollover; the registry is untouched |
| Chores.ChoreTracker.RegisterCompletedTask | Homecleaning/cleaning-script.js:394-417 | appends one weekly task for the cleaner, due in seven days; the log is untouched |
| Chores.ChoreTracker.AddNewTask | Homecleaning/cleaning-script.js:419-438 | appends one task every intervalDays days, first due one interval from now |
| Chores.ChoreTracker.AddNewRecurringTask | Homecleaning/cleaning-script.js:1116-1157 | an empty name changes nothing; otherwise one task is appended, with the memo icon when no icon is given and the interval defaulting to seven days |
| Chores.ChoreTracker.UpdateTaskInterval | Homecleaning/cleaning-script.js:1066-1081 | days outside 1..30 (or NaN), or an unknown id, change nothing; otherwise only that task's interval becomes days * 86400000, with its nextDue and every other task unchanged |
| Chores.ChoreTracker.UpdateTaskAssignee | Homecleaning/cleaning-script.js:1083-1093 | only that task's assignee changes; an unknown id changes nothing |
| Chores.ChoreTracker.DeleteTask | Homecleaning/cleaning-script.js:1095-1114 | splices out the first task with the id, the rest kept in order; with unique ids, none is left with that id |
| Chores.ChoreTracker.AdjustPoints | Homecleaning/cleaning-script.js:1224-1246 | the log becomes Adjusted(old log): a manual entry appended for +1, the member's latest entry removed for -1; the registry is untouched |
| Chores.ChoreTracker.HandleFooterClick | Homecleaning/cleaning-script.js:730-740 | after both confirmations the log is emptied and the boundary forgotten; otherwise nothing changes |
| Walks.LeaderboardData | script.js:234-254 | the walk leaderboard: each of the four family members once, with their number of walks (unknown walkers ignored), non-increasing, ties in roster order |
| Walks.WalkCredits | script.js:228-232 | appending a walk adds one point to its walker only and makes it the last walk |
| Walks.TimerDisplay | script.js:277-307 | time's up with 00:00:00 iff remaining <= 0; warning iff under 15 min; prepare iff 15 to 30 min; quiet from 30 min; for remaining > 0, h*3600000 + m*60000 + s*1000 <= remaining < that + 1000, with m and s below 60 |
| Walks.ClockSplit | script.js:288-290 | the three floored divisions give minutes and seconds below 60, and together they are the remaining time truncated to whole seconds |
| Walks.DisplayIsWholeSeconds | script.js:288-295 | the shown clock equals the remaining time minus its sub-second part |
| Walks.FreshTimer | script.js:310-313 | just after a reset the display reads 05:00:00 with no status |
| Walks.StatusEscalates | script.js:277-307 | for a fixed next walk time, the timer status only escalates as time passes |
| Walks.WalkTracker.Walks | script.js:223-226 | getWalks: the stored walk log, or empty when the key is absent |
| Walks.WalkTracker.Remaining | script.js:274-275 | nextWalkTime - now, with an unset next walk time (null) read as 0 |
| Walks.WalkTracker.LoadSavedData | script.js:57-79 | afterwards nextWalkTime >= now and it equals the stored value; a stored value that is not in the past is kept; an absent or past one becomes now + 5 h; a missing walk log becomes empty |
| Walks.WalkTracker.CheckWeeklyReset | script.js:109-133 | the store after the weekly check at Sunday 23:00: the new boundary, and empty walks exactly on rollover |
| Walks.WalkTracker.CheckDailyFeedingReset | script.js:136-149 | on a new date label both feeding slots are cleared (flag and time); otherwise nothing changes; either way today's label is stored, so a second call the same day is idle |
| Walks.WalkTracker.HandleFeedingClick | script.js:151-186 | an unfed slot becomes fed at now; a fed slot is cleared only if the undo is confirmed; the other slot is untouched |
| Walks.WalkTracker.AddWalk | script.js:228-232 | exactly one walk {walker, timestamp} is appended, with earlier walks unchanged |
| Walks.WalkTracker.UpdateTimerDisplay | script.js:270-307 | the weekly check runs on every tick, then the countdown is shown for nextWalkTime - now (null is read as 0) |
| Walks.WalkTracker.ResetTimer | script.js:310-314 | the next walk is now + 5 h, both in memory and stored; the refreshed display reads 05:00:00 |
| Walks.WalkTracker.HandleWalkButtonClick | script.js:317-333 | with no walker chosen nothing changes; otherwise the walk is logged at now and the timer reset |
| Walks.WalkTracker.HandleFooterClick | script.js:483-495 | after three confirmations the walk log and the boundary are removed; otherwise nothing changes |
| Walks.WalkTracker.Init | script.js:26-33 | runs the weekly check, the daily feeding check, the load and the first tick in that order; the tick's weekly check finds nothing left to do |

## Left out

- All DOM building and rendering is not modelled: modals, notifications, rank emojis, fullscreen and the settings screens. Only the numeric part of the Swedish display strings is kept (`TimeUntilText`, `TimeAgo`, `TimerDisplay`); zero padding and plural endings are not.
- Weather and geolocation are network and browser APIs and have no bearing on the state.
- `setInterval`/`setTimeout` and `location.reload` are not modelled. Each tick is an explicit call with `now`. Every `Date.now()` within one handler is taken to be the same instant.
- JSON serialisation and `localStorage` strings are not modelled. Stored values are typed optional fields.
  - The stored next walk time is an `Option<int>`. A stored value that parses to `NaN` is not modelled.
  - Feeding flags are booleans: only the string `'true'` counts as fed.
- JavaScript numbers are doubles; the model uses unbounded integers. That is exact for timestamps and intervals below 2^53 ms. A digit string beyond the double range, which `parseInt` turns into `Infinity`, is not modelled.
- Local-time `Date` semantics are reduced to days of fixed length. Time zones, daylight-saving days and `setDate` month arithmetic are folded into the timestamp. `toDateString` is the day number.
- Chores.ChoreTracker.UpdateTaskInterval: uses the intended guard, not the written one, so the `NaN` interval it would store is not produced (see Findings).
- Walks.WalkTracker.CheckDailyFeedingReset: the model lets it run at any instant, but the page calls it only from `Init`, once per load; the countdown tick does not. So on a page left open past midnight, yesterday's feeding flags stay set until the next load.
- Chores.ChoreTracker.CheckWeeklyReset: the model lets it run at any instant, but the page calls it only from `Init`, once per load. So the log is emptied at the first load at or after the boundary, not at the boundary itself.
- The `completed: false` field of every task is never read, so tasks do not carry it.
- Ids from `Date.now()` are parameters. Their uniqueness is stated only as a hypothesis of the uniqueness ensures.
- Leaderboard, both apps: the counting object is a plain `{}`. A cleaner or walker whose name is an `Object.prototype` property, such as `toString`, would gain an own entry holding `NaN` in the real code. The model counts only the roster.
- `server.js`, an Express static file server, is not part of this model.

## Findings

| source | as written | input that shows it | evidently intended | confidence | as-written member | corrected member |
|---|---|---|---|---|---|---|
| Homecleaning/cleaning-script.js:1066-1081 | the guard `newIntervalDays < 1 \|\| newIntervalDays > 30` rejects only numbers outside 1..30 | clearing the interval field gives `parseInt('')`, which is NaN; both comparisons are false, so the task's interval becomes NaN * 86400000 | intervals outside 1..30 days, including a missing number, are refused | not executed | Chores.IntervalRejectedAsWritten, Chores.NaNPassesGuardAsWritten | Chores.IntervalAccepted, Chores.ChoreTracker.UpdateTaskInterval |
