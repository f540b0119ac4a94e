# Mantra tracker: statistics and mantra update, modelled in Dafny

The mantra tracker backend stores users' *mantras* (a title, a text and a
repetition goal) and *sessions* (a repetition count logged against a mantra
at some instant). This project models two parts of it:

* **The statistics summary** of `GET /api/stats`. From a user's mantras and
  sessions, already fetched, it computes five things: the total repetitions,
  the number of mantras, the number of distinct active calendar days, the
  current streak, and a 30-entry daily-activity series. The streak counts
  consecutive active days ending today, with one grace day: the run may end
  yesterday instead. The totals, the distinct-day set and the per-day sums are
  functions. The streak walk and the activity series are methods with the
  route's loops. Each method is proved against a specification function
  (`StreakSpec`, `Activity`).
* **`updateMantra` of the store.** It builds the `fields` (SET clauses) and
  `values` (bound parameters) lists by successive pushes. The model then
  gives the UPDATE statement and the follow-up SELECT a meaning over a table
  of mantra rows. With that, it proves that the placeholders line up one for
  one with the values, and that only the caller's own row changes.

Modelling choices:

* Instants are integer milliseconds since the epoch (`Timestamp`). A calendar
  day is `DayOf(t) = floor(t / 86 400 000)`. The route groups days with the
  local `toDateString()` and prints them with the UTC `toISOString()`. Both
  become this one day number, so time zones and daylight-saving shifts are not
  modelled. A `dailyActivity` entry carries the day number where the route
  prints its `YYYY-MM-DD` text.
* The clock is a parameter, `now`. The statistics read it once, and so does
  `updateMantra`.
* `Array.from(uniqueDates).sort(...)` is the function `SortedDesc`. Its
  contract is what the sort promises: the same days, each once, strictly
  decreasing.
* The streak is decided by the most recent active day, as the code does it.
  So a session dated after today makes the streak zero even when today is
  active (`StreakZeroAfterFutureDay`).
* The aggregator trusts its inputs as the code does. It does not drop
  sessions whose owner differs from the requesting user, and it does not skip
  sessions with an unparseable date. The model follows the code.
* `dbRun` on the UPDATE becomes `Bind` (positional binding of `values` to the
  statement's placeholders) followed by `Execute` (the WHERE filter and the
  SET assignments on a `seq<Mantra>` table). `dbGet` becomes `FindMantra`.
  The statement text itself is `UpdateSql`; its placeholder count is proved
  equal to the number of values: one per SET clause plus the two of
  `WHERE id = ? AND userId = ?`. So `values` has two more entries than
  `fields`.

## Model

| member | source | states |
|---|---|---|
| `Records.Mantra` | src/lib/database.ts:48-56 | a mantra row: id, owner, title, text, goal and its creation and update instants |
| `Records.MantraSession` | src/lib/database.ts:59-65 | a session row: id, owner, mantra, repetition count and instant |
| `Records.DayOf` | src/app/api/stats/route.ts:43 | the calendar day of an instant is the unique day whose 24-hour span contains it |
| `Records.DayBefore` | src/app/api/stats/route.ts:56 | the instant 24 hours before `now` falls on the calendar day before today |
| `StatsTotals.SumCounts` | src/app/api/stats/route.ts:38 | `totalRepetitions` is zero exactly when every session has count zero |
| `StatsTotals.SumCountsAppend` | src/app/api/stats/route.ts:38 | `totalRepetitions` is additive over any split of the session list, so it does not depend on grouping |
| `StatsTotals.SumCountsAtLeastSessions` | src/app/api/stats/route.ts:38 | with every count at least 1, total repetitions are at least the number of sessions |
| `StatsTotals.DaySet` | src/app/api/stats/route.ts:42-45 | the set of active days holds the day of every session and nothing else, so `activeDays` never exceeds the number of sessions |
| `StatsTotals.SessionsIn` | src/app/api/stats/route.ts:85 | definition: the sessions whose day lies in a range, in their original order; `SessionsInAtMostTotal` and `EmptyWindow` state its properties |
| `StatsTotals.DayTotal` | src/app/api/stats/route.ts:84-86 | a day's total never exceeds `totalRepetitions` |
| `StatsTotals.SessionsInAtMostTotal` | src/app/api/stats/route.ts:84-86 | filtering sessions by day never raises their total above `totalRepetitions` |
| `StatsTotals.InactiveDayTotalIsZero` | src/app/api/stats/route.ts:84-86 | a day with no session has daily total 0 |
| `StatsTotals.DayTotalPositiveIffActive` | src/app/api/stats/route.ts:84-86 | with positive counts, a day's total is positive exactly when the day is active |
| `StatsTotals.WindowSplitLast` | src/app/api/stats/route.ts:84-86 | the total over a range of days is the total without its last day plus that day's total |
| `Streak.Run` | src/app/api/stats/route.ts:62-73 | the run from an anchor is a k with anchor, …, anchor-k+1 all active and anchor-k inactive, and k is at most the number of active days |
| `Streak.RunUnique` | src/app/api/stats/route.ts:62-73 | that characterisation determines the run length uniquely |
| `Streak.StreakSpec` | src/app/api/stats/route.ts:53-75 | the streak never exceeds `activeDays` |
| `Streak.SortedDesc` | src/app/api/stats/route.ts:49-51 | the sorted dates are exactly the active days, each once, strictly newest first |
| `Streak.GapNotInSorted` | src/app/api/stats/route.ts:64-73 | when the walk breaks at position k, the day anchor-k occurs nowhere in the sorted dates |
| `Streak.WalkStopsAtGap` | src/app/api/stats/route.ts:64-73 | the backward walk over the sorted dates stops exactly at the first missing day, so its count is the run length |
| `Streak.StreakFromNewest` | src/app/api/stats/route.ts:54-62 | the streak is the run from the newest active day if that day is today or yesterday, and 0 otherwise |
| `Streak.CurrentStreak` | src/app/api/stats/route.ts:47-75 | the streak loop, with its break at the first gap, computes `StreakSpec` for today |
| `Streak.StreakZeroWithoutRecentDay` | src/app/api/stats/route.ts:58-60 | no activity today or yesterday gives streak 0, whatever the older history |
| `Streak.StreakFromToday` | src/app/api/stats/route.ts:59-73 | when today is the latest active day, the streak is at least 1 and is the unbroken run ending today |
| `Streak.StreakFromYesterday` | src/app/api/stats/route.ts:56-73 | grace day: with no session today, one yesterday and no session dated after today, the streak is the unbroken run ending yesterday |
| `Streak.ThreeDayStreak` | src/app/api/stats/route.ts:62-73 | sessions today, yesterday and the day before, none three days ago and no session dated after today, give streak 3 |
| `Streak.StreakZeroAfterFutureDay` | src/app/api/stats/route.ts:49-60 | an active day after today makes the streak 0 |
| `DailyActivity.DailyCount` | src/app/api/stats/route.ts:88-91 | definition: one point of the series, a day and that day's total |
| `DailyActivity.Series` | src/app/api/stats/route.ts:78-92 | definition: one entry per day from `first` on, holding that day's `DayTotal`; its shape is stated by `ActivityIsLoopResult` |
| `DailyActivity.Activity` | src/app/api/stats/route.ts:78-92 | definition: the reference series for the 30 days ending today, which `ComputeDailyActivity` is proved to build |
| `DailyActivity.ComputeDailyActivity` | src/app/api/stats/route.ts:77-92 | the activity loop yields exactly 30 entries, for today-29 … today in increasing order, each the day's session total |
| `DailyActivity.ActivityIsLoopResult` | src/app/api/stats/route.ts:78-92 | the series has 30 entries, the last dated today, each holding that day's total |
| `DailyActivity.SeriesTotalIsWindowTotal` | src/app/api/stats/route.ts:84-90 | the counts of a series of consecutive days add up to the total of the sessions in that window |
| `DailyActivity.EmptyWindow` | src/app/api/stats/route.ts:85 | no session falls in an empty range of days |
| `DailyActivity.ActivityTotalBound` | src/app/api/stats/route.ts:84-90 | the 30-day series adds up to the repetitions of the last 30 days, hence at most `totalRepetitions` |
| `DailyActivity.NoSessionsNoActivity` | src/app/api/stats/route.ts:78-92 | with no sessions every entry of the series is 0 |
| `StatsRoute.Statistics` | src/app/api/stats/route.ts:94-100 | definition: the five fields of the summary the route returns |
| `StatsRoute.ComputeStats` | src/app/api/stats/route.ts:37-100 | the summary is the session total, the mantra count, the number of distinct days, `StreakSpec` and `Activity`, with streak ≤ activeDays ≤ sessions |
| `StatsRoute.EmptySummary` | src/app/api/stats/route.ts:38-92 | no mantras and no sessions give the all-zero summary with 30 zero entries |
| `StatsRoute.SameDaySessionsAdd` | src/app/api/stats/route.ts:84-86 | sessions of 5 and 8 on the same day give that day an entry of 13 |
| `UpdateMantra.MantraUpdate` | src/lib/database.ts:201 | definition: the optional title, text and goal of the update request, `None` for `undefined` |
| `UpdateMantra.Assignments` | src/lib/database.ts:207-221 | definition: the reference list of assignments the pushes perform; `ColumnsOfAssignments`, `ClausePresence`, `ClauseOrder` and `AssignedValues` state what it contains |
| `UpdateMantra.Clause` | src/lib/database.ts:208 | the column can be read back from its SET clause, and a clause for a column name without `?` holds exactly one placeholder |
| `UpdateMantra.BuildUpdate` | src/lib/database.ts:203-223 | `fields` are the clauses of the update's assignments; `values` are their values followed by `id` and `userId`; `values` is two longer than `fields` |
| `UpdateMantra.ColumnsOfAssignments` | src/lib/database.ts:207-221 | the clause columns are the defined ones among title, text, goal, in that order, then `updatedAt` |
| `UpdateMantra.ClausePresence` | src/lib/database.ts:207-221 | a title, text or goal clause is present exactly when that field is defined; `updatedAt` is always present and last |
| `UpdateMantra.ClauseOrder` | src/lib/database.ts:207-221 | clauses follow the fixed order title, text, goal, updatedAt, with no column twice |
| `UpdateMantra.AssignedValues` | src/lib/database.ts:209-221 | the values bound to the SET clauses are the defined field values in clause order, then `now` |
| `UpdateMantra.Join` | src/lib/database.ts:226 | joining one-placeholder clauses with a placeholder-free separator yields one placeholder per clause |
| `UpdateMantra.UpdateSql` | src/lib/database.ts:226 | with one placeholder per SET clause, the statement holds two more placeholders than there are clauses |
| `UpdateMantra.WherePlaceholders` | src/lib/database.ts:226 | the WHERE clause holds two placeholders |
| `UpdateMantra.PlaceholdersMatchValues` | src/lib/database.ts:204-227 | the UPDATE text has exactly as many `?` as there are values |
| `UpdateMantra.ColumnOf` | src/lib/database.ts:226 | a clause the column is read back from is that column followed by ` = ?` |
| `UpdateMantra.Bind` | src/lib/database.ts:225-228 | definition: positional binding of the values to the SET clauses and then to `id`, `userId`; `BuiltListsBind` states what it gives for the built lists |
| `UpdateMantra.BuiltListsBind` | src/lib/database.ts:204-228 | the built lists bind back to exactly the update's assignments and to WHERE `id`, `userId`: placeholders and values align one for one, in order |
| `UpdateMantra.Execute` | src/lib/database.ts:225-228 | definition: the effect of the bound UPDATE on the table, row by row; `UpdateMantraRow` states the resulting table |
| `UpdateMantra.Patched` | src/lib/database.ts:201-221 | definition: the row as the request describes it, each defined field replaced and `updatedAt = now`; `AssignmentsPatch` proves the built assignments produce it |
| `UpdateMantra.AssignmentsPatch` | src/lib/database.ts:207-221 | applying the built assignments to a row replaces exactly the defined fields and the update time |
| `UpdateMantra.FindMantra` | src/lib/database.ts:231-232 | the read-back finds a row exactly when one matches both `id` and `userId`, and the row it returns matches both |
| `UpdateMantra.UpdateMantraRow` | src/lib/database.ts:201-243 | only the row with the caller's `id` and `userId` is changed (to the patched row); other users' rows are untouched; the result is null exactly when no such row exists, and otherwise is the caller's row with the update's title, text and goal applied and `updatedAt = now` |
| `UpdateMantra.DeleteMantraRows` | src/lib/database.ts:245-253 | the delete removes only rows matching both `id` and `userId`; every other row stays |

## Left out

- SQLite itself: connection, table creation, and the other create/read helpers with their row-to-`Date` mapping (src/lib/database.ts:1-32, 68-199, 256-282) are I/O. The UPDATE, SELECT and DELETE of the mantra functions become the pure effects above.
- Failure paths that are exceptions from the store (`catch` returning `null`/`false`, and the route's 500 response) are not modelled; they depend on the database, not on the logic.
- `generateId`: it depends on the clock and on a random source.
- Bearer-token verification, the password hashing and the per-route token helpers: these wrap external libraries.
- Request validation by schema: only "count ≥ 1" is carried over, as the `PositiveCounts` precondition of the lemmas that need it. The goal's "≥ 1" and the non-empty title and text are not, because `updateMantra` does not rely on them.
- JavaScript numbers: counts are `nat` and goals are `int`, although the schemas (`z.number()`) accept fractions such as a goal of 1.5, which SQLite stores as a REAL even in an INTEGER column. The sums `totalRepetitions` and the daily totals are exact unbounded integers here; in the route they are doubles, exact only up to 2^53.
- Fetching with `Promise.all`, HTTP routing and the JSON responses; the CORS configuration.
- JavaScript dates: time zones, daylight saving, the local-versus-UTC split between grouping and printing, and the `YYYY-MM-DD` formatting; a session whose date does not parse (the route would count an "Invalid Date" key as a day) cannot occur with integer timestamps.
- `UpdateMantra.SetColumn`: a value whose kind does not fit its column leaves the row as it was; SQLite's type affinity is not modelled (the builder never produces such a pair).
- `UpdateMantra.Execute`: the meaning is given to the bound statement (clauses and values), not parsed from the SQL text; the text's placeholder count is proved separately.
