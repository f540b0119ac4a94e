/** The statistics summary the route returns for one user's mantras and
    sessions, both already fetched and scoped to that user. */
module StatsRoute {
  import opened Records
  import opened StatsTotals
  import opened Streak
  import opened DailyActivity

  datatype Statistics = Statistics(
    totalRepetitions: nat,
    totalMantras: nat,
    activeDays: nat,
    currentStreak: nat,
    dailyActivity: seq<DailyCount>)

  /** The body of the route's GET handler after authentication and fetching.
      `now` is the clock reading the route takes when it computes the streak. */
  method ComputeStats(mantras: seq<Mantra>, sessions: seq<MantraSession>, now: Timestamp)
    returns (stats: Statistics)
    ensures stats.totalRepetitions == SumCounts(sessions)
    ensures stats.totalMantras == |mantras|
    ensures stats.activeDays == |DaySet(sessions)|
    ensures stats.currentStreak == StreakSpec(DaySet(sessions), DayOf(now))
    ensures stats.dailyActivity == Activity(sessions, DayOf(now))
    ensures stats.currentStreak <= stats.activeDays
    ensures stats.activeDays <= |sessions|
  {
    var totalRepetitions := SumCounts(sessions);
    var totalMantras := |mantras|;
    var uniqueDates := DaySet(sessions);
    var activeDays := |uniqueDates|;

    var currentStreak := CurrentStreak(uniqueDates, now);
    var dailyActivity := ComputeDailyActivity(sessions, now);

    stats := Statistics(totalRepetitions, totalMantras, activeDays, currentStreak, dailyActivity);
  }

  /** With no mantras and no sessions, the summary is all zeros with a
      30-entry all-zero series. */
  lemma EmptySummary(today: int)
    ensures SumCounts([]) == 0 && |DaySet([])| == 0 && StreakSpec(DaySet([]), today) == 0
    ensures |Activity([], today)| == WindowDays
    ensures forall k :: 0 <= k < WindowDays ==> Activity([], today)[k].count == 0
  {
    assert DaySet([]) == {};
    NoSessionsNoActivity(today);
  }

  /** Two sessions of 5 and 8 repetitions on the same day give that day an
      entry of 13 (the other sessions being on other days). */
  lemma SameDaySessionsAdd(a: MantraSession, b: MantraSession, others: seq<MantraSession>, day: int)
    requires DayOf(a.date) == day && DayOf(b.date) == day && a.count == 5 && b.count == 8
    requires day !in DaySet(others)
    ensures DayTotal([a, b] + others, day) == 13
  {
    var all := [a, b] + others;
    var rest := SessionsIn(others, day, day);
    assert all[1..] == [b] + others;
    assert ([b] + others)[1..] == others;
    assert SessionsIn(all, day, day) == [a] + ([b] + rest);
    assert ([a] + ([b] + rest))[1..] == [b] + rest;
    assert ([b] + rest)[1..] == rest;
    InactiveDayTotalIsZero(others, day);
    assert SumCounts(rest) == 0;
    assert SumCounts([b] + rest) == 8;
    assert SumCounts([a] + ([b] + rest)) == 13;
  }
}
